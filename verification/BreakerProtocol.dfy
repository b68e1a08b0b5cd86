/**
 Any number of `run` calls racing on one breaker. A call is admitted, its closure runs, a
 probe owner frees the slot, the clock is read, and only then is the outcome recorded; each
 of these is a separate action of an arbitrary scheduler. Closures run to completion.
 */
module BreakerProtocol {
  import opened Prelude
  import opened Breaker

  type CallId = nat

  datatype Pc =
    | Running(owner: bool)
    | Releasing(ok: bool)
    | Stamping(ok: bool)
    | Recording(ok: bool, now: nat)
    | Done(ok: bool)
    | FailedFast

  datatype Event =
    | Opened(stamp: nat)
    | ClosedBy(id: CallId)
    | Started(id: CallId, at: nat)
    | Released(id: CallId)

  /** `log` and `period` (the outcomes of the current Closed period) record the history; no action reads them. */
  datatype State = State(clock: nat, breaker: Breaker, calls: map<CallId, Pc>, log: seq<Event>, period: seq<Outcome>)

  datatype Action = Tick(elapsed: nat) | Call(id: CallId) | Finish(id: CallId, ok: bool) | Advance(id: CallId)

  const INIT := State(0, FRESH, map[], [], [])

  function StartCall(cfg: Config, s: State, id: CallId): State {
    var (b, admission) := Admit(cfg, s.breaker, s.clock);
    match admission
    case Rejected => s.(breaker := b, calls := s.calls[id := FailedFast])
    case Admitted(owner) =>
      s.(breaker := b, calls := s.calls[id := Running(owner)], log := s.log + [Started(id, s.clock)])
  }

  function RecordCall(cfg: Config, s: State, id: CallId, ok: bool, now: nat): State {
    var b := Record(cfg, s.breaker, now, ok);
    s.(breaker := b,
       calls := s.calls[id := Done(ok)],
       log := if s.breaker.phase != Open && b.phase == Open then s.log + [Opened(now)]
              else if s.breaker.phase == HalfOpen && ok then s.log + [ClosedBy(id)]
              else s.log,
       period := if s.breaker.phase == HalfOpen && ok then []
                 else if s.breaker.phase == Closed then s.period + [Outcome(now, ok)]
                 else s.period)
  }

  function AdvanceCall(cfg: Config, s: State, id: CallId): State
    requires id in s.calls
  {
    match s.calls[id]
    case Releasing(ok) =>
      s.(breaker := s.breaker.(probes := 0), calls := s.calls[id := Stamping(ok)], log := s.log + [Released(id)])
    case Stamping(ok) => s.(calls := s.calls[id := Recording(ok, s.clock)])
    case Recording(ok, now) => RecordCall(cfg, s, id, ok, now)
    case _ => s
  }

  function Apply(cfg: Config, s: State, a: Action): State {
    match a
    case Tick(elapsed) => s.(clock := s.clock + elapsed)
    case Call(id) => if id in s.calls then s else StartCall(cfg, s, id)
    case Finish(id, ok) =>
      if id in s.calls && s.calls[id].Running?
      then s.(calls := s.calls[id := if s.calls[id].owner then Releasing(ok) else Stamping(ok)])
      else s
    case Advance(id) => if id in s.calls then AdvanceCall(cfg, s, id) else s
  }

  function RunFrom(cfg: Config, s: State, actions: seq<Action>): State {
    if actions == [] then s
    else Apply(cfg, RunFrom(cfg, s, actions[..|actions| - 1]), actions[|actions| - 1])
  }

  function Run(cfg: Config, actions: seq<Action>): State {
    RunFrom(cfg, INIT, actions)
  }

  lemma {:induction false} RunSnoc(cfg: Config, s: State, actions: seq<Action>, a: Action)
    ensures RunFrom(cfg, s, actions + [a]) == Apply(cfg, RunFrom(cfg, s, actions), a)
  {
    assert (actions + [a])[..|actions|] == actions;
  }

  // ----- the probe slot -----

  predicate OwnsProbe(pc: Pc) {
    pc == Running(true) || pc.Releasing?
  }

  ghost function Owners(s: State): set<CallId> {
    set id | id in s.calls && OwnsProbe(s.calls[id])
  }

  ghost predicate SlotInv(s: State) {
    s.breaker.probes == |Owners(s)| <= 1
  }

  lemma {:induction false} OwnersAfter(s: State, s': State, id: CallId, pc: Pc)
    requires s'.calls == s.calls[id := pc]
    ensures Owners(s') == if OwnsProbe(pc) then Owners(s) + {id} else Owners(s) - {id}
  {
  }

  lemma {:induction false} MoveKeepsSlot(s: State, s': State, id: CallId, pc: Pc)
    requires SlotInv(s) && s'.calls == s.calls[id := pc]
    requires s'.breaker.probes ==
      if OwnsProbe(pc) == (id in Owners(s)) then s.breaker.probes else if OwnsProbe(pc) then 1 else 0
    requires OwnsProbe(pc) && id !in Owners(s) ==> s.breaker.probes == 0
    ensures SlotInv(s')
  {
    OwnersAfter(s, s', id, pc);
    if id in Owners(s) { OnlyOne(Owners(s), id); }
    hide Owners;
  }

  lemma {:induction false} ApplyKeepsSlot(cfg: Config, s: State, a: Action)
    requires SlotInv(s)
    ensures SlotInv(Apply(cfg, s, a))
  {
    hide DropStale, Trips;
    var s' := Apply(cfg, s, a);
    if a.Tick? || a.id !in s'.calls || (a.id in s.calls && s'.calls[a.id] == s.calls[a.id]) {
      assert s'.calls == s.calls && s'.breaker == s.breaker;
      assert Owners(s') == Owners(s);
    } else {
      hide SlotInv;
      MoveKeepsSlot(s, s', a.id, s'.calls[a.id]);
    }
  }

  lemma {:induction false} OnlyOne(ids: set<CallId>, id: CallId)
    requires id in ids && |ids| <= 1
    ensures ids == {id}
  {
    assert |ids - {id}| == 0;
  }

  /**
   In every interleaving the counter equals the number of probe owners that have not released, and that
   is at most one.
   */
  lemma {:induction false} ProbeSlotCountsOwners(cfg: Config, actions: seq<Action>)
    ensures Run(cfg, actions).breaker.probes == |Owners(Run(cfg, actions))| <= 1
  {
    if actions != [] {
      ProbeSlotCountsOwners(cfg, actions[..|actions| - 1]);
      ApplyKeepsSlot(cfg, Run(cfg, actions[..|actions| - 1]), actions[|actions| - 1]);
    } else {
      assert Owners(INIT) == {};
    }
  }

  // ----- the cool-down -----

  /** Stamps are read from the clock before they are used. */
  ghost predicate StampsPast(s: State) {
    forall id <- s.calls :: s.calls[id].Recording? ==> s.calls[id].now <= s.clock
  }

  /** Either the cool-down of a logged opening is over, or it is the one in force. */
  ghost predicate CooledDown(cfg: Config, s: State, stamp: nat) {
    || stamp + cfg.openDuration <= s.clock
    || (s.breaker.phase == Open && s.breaker.openedAt == Some(stamp))
  }

  ghost predicate StartAllowed(cfg: Config, log: seq<Event>, j: nat)
    requires j < |log|
  {
    log[j].Started? ==> forall i | 0 <= i < j && log[i].Opened? :: log[i].stamp + cfg.openDuration <= log[j].at
  }

  ghost predicate CoolDownInv(cfg: Config, s: State) {
    && StampsPast(s)
    && (s.breaker.openedAt.Some? ==> s.breaker.openedAt.value <= s.clock)
    && (s.breaker.phase == Open ==> s.breaker.openedAt.Some?)
    && (forall i | 0 <= i < |s.log| && s.log[i].Opened? :: CooledDown(cfg, s, s.log[i].stamp))
    && forall j | 0 <= j < |s.log| :: StartAllowed(cfg, s.log, j)
  }

  lemma {:induction false} StartKeepsCoolDown(cfg: Config, s: State, id: CallId)
    requires CoolDownInv(cfg, s)
    ensures CoolDownInv(cfg, StartCall(cfg, s, id))
  {
    var s' := StartCall(cfg, s, id);
    forall i | 0 <= i < |s'.log| && s'.log[i].Opened? ensures CooledDown(cfg, s', s'.log[i].stamp) {
      assert s'.log[i] == s.log[i];
    }
    forall j | 0 <= j < |s'.log| ensures StartAllowed(cfg, s'.log, j) {
      if j < |s.log| { assert StartAllowed(cfg, s.log, j); }
    }
  }

  lemma {:induction false} RecordKeepsCoolDown(cfg: Config, s: State, id: CallId, ok: bool, now: nat)
    requires CoolDownInv(cfg, s) && id in s.calls && s.calls[id] == Recording(ok, now)
    ensures CoolDownInv(cfg, RecordCall(cfg, s, id, ok, now))
  {
    hide DropStale, Trips;
    var s' := RecordCall(cfg, s, id, ok, now);
    forall i | 0 <= i < |s'.log| && s'.log[i].Opened? ensures CooledDown(cfg, s', s'.log[i].stamp) {
      if i < |s.log| { assert CooledDown(cfg, s, s.log[i].stamp); }
    }
    forall j | 0 <= j < |s'.log| ensures StartAllowed(cfg, s'.log, j) {
      if j < |s.log| { assert StartAllowed(cfg, s.log, j); }
    }
  }

  lemma {:induction false} ApplyKeepsCoolDown(cfg: Config, s: State, a: Action)
    requires CoolDownInv(cfg, s)
    ensures CoolDownInv(cfg, Apply(cfg, s, a))
  {
    if a.Call? && a.id !in s.calls {
      StartKeepsCoolDown(cfg, s, a.id);
    } else if a.Advance? && a.id in s.calls && s.calls[a.id].Recording? {
      RecordKeepsCoolDown(cfg, s, a.id, s.calls[a.id].ok, s.calls[a.id].now);
    } else {
      var s' := Apply(cfg, s, a);
      assert s'.log == s.log || s'.log == s.log + [Released(a.id)];
      forall i | 0 <= i < |s'.log| && s'.log[i].Opened? ensures CooledDown(cfg, s', s'.log[i].stamp) {
        assert s'.log[i] == s.log[i] && CooledDown(cfg, s, s.log[i].stamp);
      }
      forall j | 0 <= j < |s'.log| ensures StartAllowed(cfg, s'.log, j) {
        if j < |s.log| { assert StartAllowed(cfg, s.log, j); }
      }
    }
  }

  lemma {:induction false} RunCoolDown(cfg: Config, actions: seq<Action>)
    ensures CoolDownInv(cfg, Run(cfg, actions))
  {
    if actions == [] {
    } else {
      RunCoolDown(cfg, actions[..|actions| - 1]);
      ApplyKeepsCoolDown(cfg, Run(cfg, actions[..|actions| - 1]), actions[|actions| - 1]);
    }
  }

  /** After the breaker opens with stamp t, no closure starts before t plus the open duration. */
  lemma {:induction false} NoStartDuringCoolDown(cfg: Config, actions: seq<Action>, i: nat, j: nat)
    requires i < j < |Run(cfg, actions).log|
    requires Run(cfg, actions).log[i].Opened? && Run(cfg, actions).log[j].Started?
    ensures Run(cfg, actions).log[i].stamp + cfg.openDuration <= Run(cfg, actions).log[j].at
  {
    RunCoolDown(cfg, actions);
    assert StartAllowed(cfg, Run(cfg, actions).log, j);
  }

  /**
   A new call's closure starts exactly when the breaker is closed, or is past its cool-down with no
   probe owner about.
   */
  lemma {:induction false} StartsExactlyWhenAllowed(cfg: Config, actions: seq<Action>, id: CallId)
    requires id !in Run(cfg, actions).calls
    ensures var s := Run(cfg, actions);
      Started(id, s.clock) in Apply(cfg, s, Call(id)).log[|s.log|..] <==>
        || s.breaker.phase == Closed
        || (Owners(s) == {} &&
            (s.breaker.phase == HalfOpen
             || (s.breaker.openedAt.Some? && s.breaker.openedAt.value + cfg.openDuration <= s.clock)))
  {
    RunCoolDown(cfg, actions);
    ProbeSlotCountsOwners(cfg, actions);
    var s := Run(cfg, actions);
    assert s.breaker.phase == Open ==> s.breaker.openedAt.Some? && s.breaker.openedAt.value <= s.clock;
    assert s.breaker.probes == 0 <==> Owners(s) == {};
    hide Owners, Run, CoolDownInv;
    var s' := Apply(cfg, s, Call(id));
    assert s'.log == s.log || s'.log == s.log + [Started(id, s.clock)];
  }

  // ----- the sliding window over runs -----

  /** What the next action needs for the deque to stay exact: a reading in lock order, after a whole window. */
  ghost predicate OrderedStep(cfg: Config, s: State, a: Action) {
    a.Advance? && a.id in s.calls && s.calls[a.id].Recording? && s.breaker.phase == Closed ==>
      var now := s.calls[a.id].now;
      cfg.window <= now && (s.period != [] ==> s.period[|s.period| - 1].at <= now)
  }

  ghost predicate WindowInv(cfg: Config, s: State) {
    DequeIsWindow(cfg, s.breaker.events, s.period)
  }

  lemma {:induction false} ApplyKeepsWindow(cfg: Config, s: State, a: Action)
    requires WindowInv(cfg, s) && OrderedStep(cfg, s, a)
    ensures WindowInv(cfg, Apply(cfg, s, a))
  {
    if a.Advance? && a.id in s.calls && s.calls[a.id].Recording? && s.breaker.phase == Closed {
      RecordKeepsWindow(cfg, s.breaker, s.period, s.calls[a.id].now, s.calls[a.id].ok);
      hide Record, DequeIsWindow;
    }
  }

  /** In every ordered interleaving the deque is exactly the window of the current Closed period's history. */
  lemma {:induction false} DequeRefinesHistory(cfg: Config, actions: seq<Action>)
    requires forall n | 0 <= n < |actions| :: OrderedStep(cfg, Run(cfg, actions[..n]), actions[n])
    ensures WindowInv(cfg, Run(cfg, actions))
  {
    if actions == [] {
    } else {
      var n := |actions| - 1;
      forall k | 0 <= k < n ensures OrderedStep(cfg, Run(cfg, actions[..n][..k]), actions[..n][k]) {
        assert actions[..n][..k] == actions[..k];
      }
      DequeRefinesHistory(cfg, actions[..n]);
      ApplyKeepsWindow(cfg, Run(cfg, actions[..n]), actions[n]);
    }
  }

  lemma {:induction false} OpensOnWindowStep(cfg: Config, s: State, id: CallId)
    requires WindowInv(cfg, s) && id in s.calls && s.calls[id].Recording? && s.breaker.phase == Closed
    requires OrderedStep(cfg, s, Advance(id))
    ensures var now := s.calls[id].now;
      Apply(cfg, s, Advance(id)).breaker.phase == Open <==>
        Trips(cfg, Within(s.period + [Outcome(now, s.calls[id].ok)], now - cfg.window))
  {
    assert Apply(cfg, s, Advance(id)).breaker == Record(cfg, s.breaker, s.calls[id].now, s.calls[id].ok);
    hide Apply, Record, Trips, Within, DequeIsWindow;
    TripIsExact(cfg, s.breaker, s.period, s.calls[id].now, s.calls[id].ok);
  }

  /** And a recording in the Closed phase opens the breaker exactly when that window says so. */
  lemma {:induction false} OpensExactlyOnWindow(cfg: Config, actions: seq<Action>, id: CallId)
    requires forall n | 0 <= n < |actions| :: OrderedStep(cfg, Run(cfg, actions[..n]), actions[n])
    requires var s := Run(cfg, actions);
      id in s.calls && s.calls[id].Recording? && s.breaker.phase == Closed && OrderedStep(cfg, s, Advance(id))
    ensures var s := Run(cfg, actions);
      var now := s.calls[id].now;
      Apply(cfg, s, Advance(id)).breaker.phase == Open <==>
        Trips(cfg, Within(s.period + [Outcome(now, s.calls[id].ok)], now - cfg.window))
  {
    hide Apply, Record, Trips, Within, DequeIsWindow, OrderedStep, WindowInv;
    DequeRefinesHistory(cfg, actions);
    OpensOnWindowStep(cfg, Run(cfg, actions), id);
  }

  /**
   In such a run the documented rule, that the share exceeds the threshold, is what opens it unless the
   share is equal.
   */
  lemma {:induction false} OpensAsDocumentedIff(cfg: Config, actions: seq<Action>, id: CallId)
    requires forall n | 0 <= n < |actions| :: OrderedStep(cfg, Run(cfg, actions[..n]), actions[n])
    requires var s := Run(cfg, actions);
      id in s.calls && s.calls[id].Recording? && s.breaker.phase == Closed && OrderedStep(cfg, s, Advance(id))
    ensures var s := Run(cfg, actions);
      var now := s.calls[id].now;
      var w := Within(s.period + [Outcome(now, s.calls[id].ok)], now - cfg.window);
      (Apply(cfg, s, Advance(id)).breaker.phase == Open <==> Exceeds(cfg, w)) <==> !AtThreshold(cfg, w)
  {
    OpensExactlyOnWindow(cfg, actions, id);
    hide Run, Apply, Within, OrderedStep, Failures;
  }

  // ----- who decides a half-open breaker -----

  /** A half-open breaker is closed by whichever call records a success first, probe or not. */
  lemma {:induction false} AnyRecordingDecides(cfg: Config, s: State, id: CallId)
    requires id in s.calls && s.calls[id].Recording? && s.breaker.phase == HalfOpen
    ensures var b := Apply(cfg, s, Advance(id)).breaker;
      b.phase == if s.calls[id].ok then Closed else Open
  {
  }

  predicate Over(pc: Pc) {
    pc.Done? || pc.FailedFast?
  }

  /** The breaker is half-open and `probe` owns the slot. */
  predicate Probing(s: State, probe: CallId) {
    && s.breaker.phase == HalfOpen && s.breaker.probes == 1
    && probe in s.calls && OwnsProbe(s.calls[probe])
  }

  /** No call but the probe is still under way. */
  ghost predicate OnlyProbeLeft(s: State, probe: CallId) {
    forall id <- s.calls :: id != probe ==> Over(s.calls[id])
  }

  lemma {:induction false} OnlyProbeLeftStays(cfg: Config, s: State, actions: seq<Action>, probe: CallId)
    requires Probing(s, probe) && OnlyProbeLeft(s, probe) && Advance(probe) !in actions
    ensures Probing(RunFrom(cfg, s, actions), probe) && OnlyProbeLeft(RunFrom(cfg, s, actions), probe)
  {
    if actions == [] {
    } else {
      var before, a := actions[..|actions| - 1], actions[|actions| - 1];
      assert a in actions && Advance(probe) !in before;
      OnlyProbeLeftStays(cfg, s, before, probe);
      StepKeepsProbe(cfg, RunFrom(cfg, s, before), a, probe);
      hide Apply;
    }
  }

  lemma {:induction false} StepKeepsProbe(cfg: Config, s: State, a: Action, probe: CallId)
    requires Probing(s, probe) && OnlyProbeLeft(s, probe) && a != Advance(probe)
    ensures Probing(Apply(cfg, s, a), probe) && OnlyProbeLeft(Apply(cfg, s, a), probe)
  {
    assert (a.Advance? || a.Finish?) && a.id in s.calls && a.id != probe ==> Over(s.calls[a.id]);
  }

  /** A call that is still under way can be driven to its recording while the breaker stays half-open. */
  lemma {:induction false} OutstandingRecords(cfg: Config, s: State, id: CallId) returns (actions: seq<Action>)
    requires id in s.calls && !Over(s.calls[id]) && s.breaker.phase == HalfOpen
    ensures forall a <- actions :: a == Finish(id, true) || a == Advance(id)
    ensures var s' := RunFrom(cfg, s, actions);
      id in s'.calls && s'.calls[id].Recording? && s'.breaker.phase == HalfOpen
    decreases match s.calls[id] case Running(_) => 3 case Releasing(_) => 2 case Stamping(_) => 1 case _ => 0
  {
    if s.calls[id].Recording? {
      actions := [];
    } else {
      var a := if s.calls[id].Running? then Finish(id, true) else Advance(id);
      var s' := Apply(cfg, s, a);
      var rest := OutstandingRecords(cfg, s', id);
      actions := [a] + rest;
      RunCons(cfg, s, a, rest);
    }
  }

  lemma {:induction false} RunCons(cfg: Config, s: State, a: Action, rest: seq<Action>)
    ensures RunFrom(cfg, s, [a] + rest) == RunFrom(cfg, Apply(cfg, s, a), rest)
  {
    if rest == [] {
      assert [a] + rest == [] + [a];
      RunSnoc(cfg, s, [], a);
    } else {
      var n := |rest| - 1;
      RunCons(cfg, s, a, rest[..n]);
      RunSnoc(cfg, s, [a] + rest[..n], rest[n]);
      assert [a] + rest == [a] + rest[..n] + [rest[n]];
      hide Apply;
    }
  }

  /**
   The probe decides a half-open breaker, that is, no run moves it before the probe's own next
   step, if and only if every call admitted earlier is over.
   */
  lemma {:induction false} ProbeDecidesIff(cfg: Config, s: State, probe: CallId)
    requires Probing(s, probe)
    ensures (forall actions: seq<Action> | Advance(probe) !in actions ::
               RunFrom(cfg, s, actions).breaker.phase == HalfOpen)
            <==> OnlyProbeLeft(s, probe)
  {
    if OnlyProbeLeft(s, probe) {
      forall actions: seq<Action> | Advance(probe) !in actions
        ensures RunFrom(cfg, s, actions).breaker.phase == HalfOpen
      {
        OnlyProbeLeftStays(cfg, s, actions, probe);
      }
    } else {
      var id :| id in s.calls && id != probe && !Over(s.calls[id]);
      var actions := OutstandingRecords(cfg, s, id);
      AnyRecordingDecides(cfg, RunFrom(cfg, s, actions), id);
      hide Apply;
      RunSnoc(cfg, s, actions, Advance(id));
      assert Advance(probe) !in actions + [Advance(id)];
      assert RunFrom(cfg, s, actions + [Advance(id)]).breaker.phase != HalfOpen;
    }
  }

  // ----- a late call under a running probe -----

  predicate AllFailedAtZero(events: seq<Outcome>) {
    forall e <- events :: e == Outcome(0, false)
  }

  /** Call 0 is running since the start; calls 1 to `k` have failed at time zero; nobody else has called. */
  ghost predicate FailedSoFar(s: State, k: nat) {
    && s.clock == 0 && s.breaker.phase == Closed && s.breaker.probes == 0
    && |s.breaker.events| == k && AllFailedAtZero(s.breaker.events)
    && 0 in s.calls && s.calls[0] == Running(false)
    && (forall id | id > k :: id !in s.calls)
    && s.log != [] && s.log[0] == Started(0, 0) && forall e <- s.log :: !e.Opened?
  }

  lemma {:induction false} NothingStaleAtZero(events: seq<Outcome>, window: nat)
    requires AllFailedAtZero(events)
    ensures DropStale(events, Cutoff(0, window)) == events
  {
    assert events != [] ==> events[0] in events;
  }

  lemma {:induction false} FailuresOfAll(events: seq<Outcome>)
    requires AllFailedAtZero(events)
    ensures Failures(events) == |events|
  {
    if events == [] {
    } else {
      assert events[0] in events;
      assert forall e <- events[1..] :: e in events;
      FailuresOfAll(events[1..]);
    }
  }

  lemma {:induction false} ShareOfAll(n: nat)
    requires n > 0
    ensures n as real / n as real == 1.0
  {
  }

  function MinFailures(cfg: Config): nat {
    if cfg.minVolume > 0 then cfg.minVolume else 1
  }

  /** What one more failure at time zero does to the breaker. */
  lemma {:induction false} FailureAtZero(cfg: Config, b: Breaker)
    requires b.phase == Closed && AllFailedAtZero(b.events) && cfg.failureRatio <= 1.0
    ensures var b' := Record(cfg, b, 0, false);
      && b'.events == b.events + [Outcome(0, false)] && AllFailedAtZero(b'.events) && b'.probes == b.probes
      && if |b.events| + 1 >= MinFailures(cfg) then b'.phase == Open && b'.openedAt == Some(0)
         else b'.phase == Closed
  {
    var events := b.events + [Outcome(0, false)];
    NothingStaleAtZero(events, cfg.window);
    FailuresOfAll(events);
    ShareOfAll(|events|);
    hide DropStale, Failures, Cutoff;
  }

  /** One call that starts and fails at time zero. */
  lemma {:induction false} FailingCall(cfg: Config, s: State, id: CallId) returns (actions: seq<Action>)
    requires s.breaker.phase == Closed && s.clock == 0 && id !in s.calls
    ensures RunFrom(cfg, s, actions) == RecordCall(cfg,
              s.(calls := s.calls[id := Recording(false, 0)], log := s.log + [Started(id, 0)]), id, false, 0)
  {
    hide Record;
    var s1 := s.(calls := s.calls[id := Running(false)], log := s.log + [Started(id, 0)]);
    var s2, s3 := s1.(calls := s.calls[id := Stamping(false)]), s1.(calls := s.calls[id := Recording(false, 0)]);
    assert Apply(cfg, s, Call(id)) == s1;
    assert Apply(cfg, s1, Finish(id, false)) == s2;
    assert Apply(cfg, s2, Advance(id)) == s3;
    assert Apply(cfg, s3, Advance(id)) == RecordCall(cfg, s3, id, false, 0);
    hide Apply, RecordCall;
    actions := [];
    RunSnoc(cfg, s, actions, Call(id));
    actions := actions + [Call(id)];
    RunSnoc(cfg, s, actions, Finish(id, false));
    actions := actions + [Finish(id, false)];
    RunSnoc(cfg, s, actions, Advance(id));
    actions := actions + [Advance(id)];
    RunSnoc(cfg, s, actions, Advance(id));
    actions := actions + [Advance(id)];
  }

  lemma {:induction false} RunAppend(cfg: Config, s: State, before: seq<Action>, after: seq<Action>)
    ensures RunFrom(cfg, s, before + after) == RunFrom(cfg, RunFrom(cfg, s, before), after)
  {
    if after == [] {
      assert before + after == before;
    } else {
      var n := |after| - 1;
      RunAppend(cfg, s, before, after[..n]);
      RunSnoc(cfg, s, before + after[..n], after[n]);
      assert before + after == before + after[..n] + [after[n]];
      hide Apply;
    }
  }

  lemma {:induction false} FailuresBefore(cfg: Config, k: nat) returns (actions: seq<Action>)
    requires cfg.failureRatio <= 1.0 && k < MinFailures(cfg)
    ensures FailedSoFar(Run(cfg, actions), k)
  {
    if k == 0 {
      RunSnoc(cfg, INIT, [], Call(0));
      actions := [] + [Call(0)];
    } else {
      var before := FailuresBefore(cfg, k - 1);
      var s := Run(cfg, before);
      var call := FailingCall(cfg, s, k);
      RunAppend(cfg, INIT, before, call);
      FailureAtZero(cfg, s.breaker);
      hide Record, RunFrom, MinFailures;
      actions := before + call;
    }
  }

  /** The failure that completes the volume opens the breaker at time zero under the running call. */
  lemma {:induction false} TripUnderCall(cfg: Config) returns (actions: seq<Action>)
    requires cfg.failureRatio <= 1.0
    ensures var s := Run(cfg, actions);
      && s.clock == 0 && s.breaker.phase == Open && s.breaker.openedAt == Some(0) && s.breaker.probes == 0
      && 0 in s.calls && s.calls[0] == Running(false)
      && |s.log| > 1 && s.log[0] == Started(0, 0) && s.log[|s.log| - 1].Opened?
      && (forall i | 0 <= i < |s.log| - 1 :: !s.log[i].Opened?)
      && forall id | id > MinFailures(cfg) :: id !in s.calls
  {
    var n := MinFailures(cfg);
    var before := FailuresBefore(cfg, n - 1);
    var s := Run(cfg, before);
    var call := FailingCall(cfg, s, n);
    RunAppend(cfg, INIT, before, call);
    FailureAtZero(cfg, s.breaker);
    hide Record, RunFrom;
    actions := before + call;
    assert Run(cfg, actions).log == s.log + [Started(n, 0)] + [Opened(0)];
  }

  /** After the cool-down a new call becomes the probe. */
  lemma {:induction false} ProbeStarts(cfg: Config, s: State, probe: CallId) returns (actions: seq<Action>)
    requires s.clock == 0 && s.breaker.phase == Open && s.breaker.openedAt == Some(0) && s.breaker.probes == 0
    requires probe !in s.calls
    ensures var s' := RunFrom(cfg, s, actions);
      && s'.breaker.phase == HalfOpen && s'.calls == s.calls[probe := Running(true)]
      && s'.log == s.log + [Started(probe, cfg.openDuration)]
  {
    var d := cfg.openDuration;
    assert Apply(cfg, s, Tick(d)) == s.(clock := d);
    var s2 := Apply(cfg, s.(clock := d), Call(probe));
    assert s2.breaker.phase == HalfOpen && s2.calls == s.calls[probe := Running(true)];
    assert s2.log == s.log + [Started(probe, d)];
    hide Apply;
    RunSnoc(cfg, s, [], Tick(d));
    RunSnoc(cfg, s, [] + [Tick(d)], Call(probe));
    actions := [] + [Tick(d)] + [Call(probe)];
  }

  /** A running call that owns no slot finishes and closes a half-open breaker. */
  lemma {:induction false} LateCloses(cfg: Config, s: State, id: CallId) returns (actions: seq<Action>)
    requires s.breaker.phase == HalfOpen && id in s.calls && s.calls[id] == Running(false)
    ensures var s' := RunFrom(cfg, s, actions);
      && s'.breaker.phase == Closed && s'.calls == s.calls[id := Done(true)] && s'.log == s.log + [ClosedBy(id)]
  {
    var s1 := s.(calls := s.calls[id := Stamping(true)]);
    var s2 := s.(calls := s.calls[id := Recording(true, s.clock)]);
    assert Apply(cfg, s, Finish(id, true)) == s1;
    assert Apply(cfg, s1, Advance(id)) == s2;
    var s3 := Apply(cfg, s2, Advance(id));
    assert s3.breaker.phase == Closed && s3.calls == s.calls[id := Done(true)] && s3.log == s.log + [ClosedBy(id)];
    hide Apply;
    RunSnoc(cfg, s, [], Finish(id, true));
    RunSnoc(cfg, s, [] + [Finish(id, true)], Advance(id));
    RunSnoc(cfg, s, [] + [Finish(id, true)] + [Advance(id)], Advance(id));
    actions := [] + [Finish(id, true)] + [Advance(id)] + [Advance(id)];
  }

  /** The call that was running all along records its success while the probe is still running. */
  lemma {:induction false} LateSuccess(cfg: Config, s: State, probe: CallId) returns (actions: seq<Action>)
    requires s.clock == 0 && s.breaker.phase == Open && s.breaker.openedAt == Some(0) && s.breaker.probes == 0
    requires 0 in s.calls && s.calls[0] == Running(false) && probe !in s.calls
    ensures var s' := RunFrom(cfg, s, actions);
      && probe in s'.calls && s'.calls[probe] == Running(true) && s'.breaker.phase == Closed
      && s'.log == s.log + [Started(probe, cfg.openDuration), ClosedBy(0)]
  {
    hide *;
    var first := ProbeStarts(cfg, s, probe);
    var second := LateCloses(cfg, RunFrom(cfg, s, first), 0);
    RunAppend(cfg, s, first, second);
    actions := first + second;
  }

  /**
   The breaker is Closed, and the log shows in this order: `late` started before the breaker had
   ever opened, it opened, `probe` started, and `late` closed it; `probe` is still running.
   */
  predicate ClosedLate(s: State, late: CallId, probe: CallId, j: nat, k: nat) {
    && s.breaker.phase == Closed && probe in s.calls && s.calls[probe] == Running(true)
    && j < k < |s.log| - 1
    && (exists i | 0 <= i < j :: s.log[i].Started? && s.log[i].id == late)
    && s.log[j].Opened? && (forall i | 0 <= i < j :: !s.log[i].Opened?)
    && s.log[k].Started? && s.log[k].id == probe
    && s.log[|s.log| - 1] == ClosedBy(late)
  }

  /** A call admitted while Closed has closed the breaker under a running probe. */
  ghost predicate ClosedUnderProbe(s: State) {
    exists late, probe, j, k :: ClosedLate(s, late, probe, j, k)
  }

  lemma {:induction false} FailuresAtMost(events: seq<Outcome>)
    ensures Failures(events) <= |events|
  {
    if events == [] {
    } else {
      FailuresAtMost(events[1..]);
    }
  }

  lemma {:induction false} ShareAtMostOne(k: nat, n: nat)
    requires k <= n && n > 0
    ensures k as real / n as real <= 1.0
  {
  }

  /** A threshold above one is never reached, so the breaker never opens. */
  lemma {:induction false} NeverOpens(cfg: Config, actions: seq<Action>)
    requires cfg.failureRatio > 1.0
    ensures Run(cfg, actions).breaker.phase == Closed
    ensures forall e <- Run(cfg, actions).log :: !e.Opened?
  {
    if actions == [] {
    } else {
      var before, a := actions[..|actions| - 1], actions[|actions| - 1];
      var s := Run(cfg, before);
      NeverOpens(cfg, before);
      if a.Advance? && a.id in s.calls && s.calls[a.id].Recording? {
        var events := DropStale(s.breaker.events + [Outcome(s.calls[a.id].now, s.calls[a.id].ok)],
                                Cutoff(s.calls[a.id].now, cfg.window));
        FailuresAtMost(events);
        if events != [] { ShareAtMostOne(Failures(events), |events|); }
        assert !Trips(cfg, events);
      }
      hide DropStale, Cutoff, Trips, Failures, RunFrom;
    }
  }

  /**
   A call admitted while Closed can close the breaker under a running probe, whatever the volume,
   the window and the cool-down, if and only if the failure threshold can be reached at all.
   */
  lemma {:induction false} LateCallClosesUnderProbe(cfg: Config)
    ensures (exists actions: seq<Action> :: ClosedUnderProbe(Run(cfg, actions))) <==> cfg.failureRatio <= 1.0
  {
    if cfg.failureRatio <= 1.0 {
      var before := TripUnderCall(cfg);
      var s := Run(cfg, before);
      var probe := MinFailures(cfg) + 1;
      var after := LateSuccess(cfg, s, probe);
      RunAppend(cfg, INIT, before, after);
      hide RunFrom;
      var s' := Run(cfg, before + after);
      assert s'.log[0] == s.log[0] && s'.log[|s.log| - 1] == s.log[|s.log| - 1];
      assert s'.log[|s.log|] == Started(probe, cfg.openDuration);
      assert ClosedLate(s', 0, probe, |s.log| - 1, |s.log|);
    } else {
      forall actions: seq<Action> ensures !ClosedUnderProbe(Run(cfg, actions)) {
        NeverOpens(cfg, actions);
        hide Run;
      }
    }
  }

  lemma {:induction false} NothingExceedsOne(cfg: Config, events: seq<Outcome>)
    requires cfg.failureRatio >= 1.0
    ensures !Exceeds(cfg, events)
  {
    FailuresAtMost(events);
    if events != [] { ShareAtMostOne(Failures(events), |events|); }
  }

  /** With the threshold at one, no window ever exceeds it, and still the breaker opens in some run. */
  lemma {:induction false} OpensAtThreshold(cfg: Config) returns (actions: seq<Action>)
    requires cfg.failureRatio == 1.0
    ensures Run(cfg, actions).breaker.phase == Open
    ensures forall events: seq<Outcome> :: !Exceeds(cfg, events)
  {
    actions := TripUnderCall(cfg);
    forall events: seq<Outcome> ensures !Exceeds(cfg, events) {
      NothingExceedsOne(cfg, events);
    }
  }

  // ----- several closures in one half-open period -----

  /** The log since the breaker last opened. */
  function Since(log: seq<Event>): seq<Event> {
    if log == [] || log[|log| - 1].Opened? then []
    else Since(log[..|log| - 1]) + [log[|log| - 1]]
  }

  lemma {:induction false} SinceSnoc(log: seq<Event>, e: Event)
    ensures Since(log + [e]) == if e.Opened? then [] else Since(log) + [e]
  {
    assert (log + [e])[..|log|] == log;
  }

  predicate StartsAt(log: seq<Event>, i: nat, id: CallId) {
    i < |log| && log[i].Started? && log[i].id == id
  }

  predicate ReleasedWithin(log: seq<Event>, i: nat, k: nat, id: CallId) {
    exists j :: i < j < k && j < |log| && log[j] == Released(id)
  }

  /** The slot is held, or has been released, and the outcome is not recorded. */
  predicate Unrecorded(pc: Pc) {
    pc == Running(true) || pc.Releasing? || pc.Stamping? || pc.Recording?
  }

  /**
   A closure started in this half-open period is an unrecorded probe, and one that no longer owns the
   slot has released it.
   */
  predicate StartInv(s: State, log: seq<Event>, i: nat, id: CallId) {
    StartsAt(log, i, id) ==>
      && id in s.calls && Unrecorded(s.calls[id])
      && (OwnsProbe(s.calls[id]) || ReleasedWithin(log, i, |log|, id))
  }

  ghost predicate StartsInv(s: State, log: seq<Event>) {
    forall i, id | 0 <= i < |log| && StartsAt(log, i, id) :: StartInv(s, log, i, id)
  }

  /** Before any later start the earlier one's slot was released. */
  ghost predicate Separated(log: seq<Event>) {
    forall i, k, p, q | 0 <= i < k && StartsAt(log, i, p) && StartsAt(log, k, q) :: ReleasedWithin(log, i, k, p)
  }

  ghost predicate PeriodInv(s: State) {
    match s.breaker.phase
    case Closed => true
    case Open => forall i, id | 0 <= i < |Since(s.log)| :: !StartsAt(Since(s.log), i, id)
    case HalfOpen => StartsInv(s, Since(s.log)) && Separated(Since(s.log))
  }

  lemma {:induction false} ReleasedLater(log: seq<Event>, e: Event, i: nat, k: nat, id: CallId)
    requires ReleasedWithin(log, i, k, id)
    ensures ReleasedWithin(log + [e], i, k, id)
    ensures k <= |log| ==> ReleasedWithin(log + [e], i, |log| + 1, id)
  {
    var j :| i < j < k && j < |log| && log[j] == Released(id);
    assert (log + [e])[j] == Released(id);
  }

  /** A new probe starts when nobody owns the slot. */
  lemma {:induction false} StartKeepsStarts(s: State, s': State, log: seq<Event>, id: CallId, at: nat)
    requires StartsInv(s, log) && Separated(log) && Owners(s) == {} && id !in s.calls
    requires s'.calls == s.calls[id := Running(true)]
    ensures StartsInv(s', log + [Started(id, at)]) && Separated(log + [Started(id, at)])
  {
    var e := Started(id, at);
    var log' := log + [e];
    forall i, p | 0 <= i < |log'| && StartsAt(log', i, p) ensures StartInv(s', log', i, p) {
      if i < |log| {
        assert StartsAt(log, i, p) && StartInv(s, log, i, p) && p !in Owners(s);
        ReleasedLater(log, e, i, |log|, p);
      }
    }
    forall i, k, p, q | 0 <= i < k && StartsAt(log', i, p) && StartsAt(log', k, q)
      ensures ReleasedWithin(log', i, k, p)
    {
      assert StartsAt(log, i, p) && StartInv(s, log, i, p) && p !in Owners(s);
      if k < |log| {
        assert StartsAt(log, k, q);
        ReleasedLater(log, e, i, k, p);
      } else {
        ReleasedLater(log, e, i, |log|, p);
      }
    }
  }

  /** A call moves on without recording. */
  lemma {:induction false} MoveKeepsStarts(s: State, s': State, log: seq<Event>, id: CallId, pc: Pc)
    requires StartsInv(s, log) && id in s.calls && s'.calls == s.calls[id := pc]
    requires Unrecorded(s.calls[id]) ==> Unrecorded(pc) && (OwnsProbe(s.calls[id]) ==> OwnsProbe(pc))
    ensures StartsInv(s', log)
  {
    forall i, p | 0 <= i < |log| && StartsAt(log, i, p) ensures StartInv(s', log, i, p) {
      assert StartInv(s, log, i, p);
    }
  }

  lemma {:induction false} ReleaseKeepsStarts(s: State, s': State, log: seq<Event>, id: CallId, ok: bool)
    requires StartsInv(s, log) && Separated(log) && id in s.calls && s.calls[id] == Releasing(ok)
    requires s'.calls == s.calls[id := Stamping(ok)]
    ensures StartsInv(s', log + [Released(id)]) && Separated(log + [Released(id)])
  {
    var e := Released(id);
    var log' := log + [e];
    forall i, p | 0 <= i < |log'| && StartsAt(log', i, p) ensures StartInv(s', log', i, p) {
      assert StartsAt(log, i, p) && StartInv(s, log, i, p);
      if p == id {
        assert log'[|log|] == Released(p);
      } else if !OwnsProbe(s.calls[p]) {
        ReleasedLater(log, e, i, |log|, p);
      }
    }
    forall i, k, p, q | 0 <= i < k && StartsAt(log', i, p) && StartsAt(log', k, q)
      ensures ReleasedWithin(log', i, k, p)
    {
      assert StartsAt(log, i, p) && StartsAt(log, k, q);
      ReleasedLater(log, e, i, k, p);
    }
  }

  lemma {:induction false} CallKeepsPeriod(cfg: Config, s: State, id: CallId)
    requires PeriodInv(s) && SlotInv(s) && id !in s.calls
    ensures PeriodInv(StartCall(cfg, s, id))
  {
    var s' := StartCall(cfg, s, id);
    var log := Since(s.log);
    SinceSnoc(s.log, Started(id, s.clock));
    if s'.breaker.phase == HalfOpen {
      assert s.breaker.phase == Open ==> StartsInv(s, log) && Separated(log);
      if s.breaker.probes == 0 {
        assert Owners(s) == {};
        hide StartsInv, Separated, Since, Owners;
        StartKeepsStarts(s, s', log, id, s.clock);
      } else {
        forall i, p | 0 <= i < |log| && StartsAt(log, i, p) ensures StartInv(s', log, i, p) {
          assert StartInv(s, log, i, p);
        }
      }
    }
  }

  lemma {:induction false} RecordKeepsPeriod(cfg: Config, s: State, id: CallId, ok: bool, now: nat)
    requires PeriodInv(s)
    ensures PeriodInv(RecordCall(cfg, s, id, ok, now))
  {
    var s' := RecordCall(cfg, s, id, ok, now);
    SinceSnoc(s.log, Opened(now));
    hide Trips, DropStale, Since, StartsInv, Separated;
  }

  lemma {:induction false} ReleaseKeepsPeriod(cfg: Config, s: State, id: CallId)
    requires PeriodInv(s) && id in s.calls && s.calls[id].Releasing?
    ensures PeriodInv(AdvanceCall(cfg, s, id))
  {
    var s' := AdvanceCall(cfg, s, id);
    SinceSnoc(s.log, Released(id));
    var log := Since(s.log);
    hide StartsInv, Separated, Since;
    if s.breaker.phase == HalfOpen {
      ReleaseKeepsStarts(s, s', log, id, s.calls[id].ok);
    } else if s.breaker.phase == Open {
      forall i, p | 0 <= i < |log + [Released(id)]| ensures !StartsAt(log + [Released(id)], i, p) {
        assert i < |log| ==> !StartsAt(log, i, p);
      }
    }
  }

  lemma {:induction false} ApplyKeepsPeriod(cfg: Config, s: State, a: Action)
    requires PeriodInv(s) && SlotInv(s)
    ensures PeriodInv(Apply(cfg, s, a))
  {
    if a.Call? && a.id !in s.calls {
      CallKeepsPeriod(cfg, s, a.id);
    } else if a.Advance? && a.id in s.calls && s.calls[a.id].Recording? {
      RecordKeepsPeriod(cfg, s, a.id, s.calls[a.id].ok, s.calls[a.id].now);
    } else if a.Advance? && a.id in s.calls && s.calls[a.id].Releasing? {
      ReleaseKeepsPeriod(cfg, s, a.id);
    } else {
      var s' := Apply(cfg, s, a);
      assert s'.log == s.log && s'.breaker == s.breaker;
      if s.breaker.phase == HalfOpen && s'.calls != s.calls {
        hide StartsInv, Separated, Since;
        MoveKeepsStarts(s, s', Since(s.log), a.id, s'.calls[a.id]);
      }
    }
  }

  lemma {:induction false} RunPeriod(cfg: Config, actions: seq<Action>)
    ensures PeriodInv(Run(cfg, actions)) && SlotInv(Run(cfg, actions))
  {
    ProbeSlotCountsOwners(cfg, actions);
    if actions == [] {
    } else {
      var before, a := actions[..|actions| - 1], actions[|actions| - 1];
      RunPeriod(cfg, before);
      ApplyKeepsPeriod(cfg, Run(cfg, before), a);
      hide PeriodInv, Apply, Owners;
    }
  }

  /**
   In a half-open period nobody who started has recorded, and two closures have started exactly
   when one started after another's release of the slot, hence before that other's recording.
   */
  lemma {:induction false} SecondStartIff(cfg: Config, actions: seq<Action>)
    requires Run(cfg, actions).breaker.phase == HalfOpen
    ensures var s := Run(cfg, actions);
      var log := Since(s.log);
      && (forall i, p | 0 <= i < |log| && StartsAt(log, i, p) :: p in s.calls && Unrecorded(s.calls[p]))
      && ((exists i, k, p, q :: 0 <= i < k && StartsAt(log, i, p) && StartsAt(log, k, q)) <==>
          exists i, k, p, q ::
            0 <= i < k && StartsAt(log, i, p) && ReleasedWithin(log, i, k, p) && StartsAt(log, k, q))
  {
    RunPeriod(cfg, actions);
    var s := Run(cfg, actions);
    var log := Since(s.log);
    hide Run, Since, Owners, ReleasedWithin;
    forall i, p | 0 <= i < |log| && StartsAt(log, i, p) ensures p in s.calls && Unrecorded(s.calls[p]) {
      assert StartInv(s, log, i, p);
    }
  }
}
