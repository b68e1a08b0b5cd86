/**
 Runs of several schedulers over one store: the lease protocol, with each claimed job carried
 to its completion in two steps, computing the next time and storing it. Between them, and
 between any two actions, other workers, sweeps and the clock may move.
 */
module SchedulerProtocol {
  import opened Prelude
  import opened Cron
  import opened CronHorizon
  import L = Lease
  import opened Scheduler

  datatype Config = Config(lease: L.Config, decodes: string -> bool)

  /** The next minute a worker computed for its claim, and the clock reading it used. */
  datatype Plan = Plan(at: int, next: Option<int>)

  /** A recurring time that was stored, or the completion that ended a job. */
  datatype Event =
    | Fires(id: L.JobId, minute: int, readAt: int)
    | Ends(id: L.JobId, readAt: int)

  /** `jobs` holds every job ever scheduled, as first stored; `log` is history that no action reads. */
  datatype State = State(core: L.State, jobs: map<L.JobId, L.Job>, plans: map<L.Claim, Plan>, log: seq<Event>)

  datatype Action =
    | Tick(elapsed: nat)
    | Submit(job: L.Job)
    | Take(worker: L.WorkerId, now: int, max: nat, ids: set<L.JobId>)
    | Reap(now: int, ids: set<L.JobId>)
    | Compute(claim: L.Claim)
    | Finish(claim: L.Claim)
    | Die(claim: L.Claim)

  const INIT := State(L.INIT, map[], map[], [])

  /** Ids are fresh, and the first run is what `schedule` computed at the creation time. */
  predicate Enabled(s: State, a: Action) {
    match a
    case Submit(job) =>
      job.id !in s.jobs && job.createdAt <= s.core.clock && FirstRun(job.schedule, job.createdAt) == Ok(job.nextRunAt)
    case Compute(claim) => claim in s.core.claims && claim.id in s.jobs && claim !in s.plans
    case Finish(claim) => claim in s.core.claims && claim in s.plans
    case _ => true
  }

  function LeaseAction(s: State, a: Action): L.Action
    requires Enabled(s, a)
  {
    match a
    case Tick(elapsed) => L.Tick(elapsed)
    case Submit(job) => L.Insert(job)
    case Take(worker, now, max, ids) => L.ClaimDue(worker, now, max, ids)
    case Reap(now, ids) => L.RequeueStale(now, ids)
    case Compute(_) => L.Tick(0)
    case Finish(claim) => L.Complete(claim, s.core.clock, Instant(s.plans[claim].next))
    case Die(claim) => L.Die(claim)
  }

  function Submitted(job: L.Job): seq<Event> {
    if job.schedule.Recurring? then
      match NextAfter(job.schedule.expr, job.createdAt)
      case Ok(minute) => [Fires(job.id, minute, job.createdAt)]
      case Err(_) => []
    else []
  }

  function Finished(claim: L.Claim, plan: Plan): Event {
    match plan.next
    case Some(minute) => Fires(claim.id, minute, plan.at)
    case None => Ends(claim.id, plan.at)
  }

  function Apply(cfg: Config, s: State, a: Action): State {
    if !Enabled(s, a) then s
    else
      var core := L.Apply(cfg.lease, s.core, LeaseAction(s, a));
      match a
      case Submit(job) => s.(core := core, jobs := s.jobs[job.id := job], log := s.log + Submitted(job))
      case Compute(claim) =>
        s.(core := core,
           plans := s.plans[claim := Plan(s.core.clock, NextMinute(cfg.decodes, s.jobs[claim.id], s.core.clock))])
      case Finish(claim) =>
        s.(core := core, plans := s.plans - {claim}, log := s.log + [Finished(claim, s.plans[claim])])
      case Die(claim) => s.(core := core, plans := s.plans - {claim})
      case _ => s.(core := core)
  }

  function Run(cfg: Config, actions: seq<Action>): State {
    if actions == [] then INIT
    else Apply(cfg, Run(cfg, actions[..|actions| - 1]), actions[|actions| - 1])
  }

  // ----- the lease protocol underneath -----

  function LeaseActions(cfg: Config, actions: seq<Action>): (r: seq<L.Action>)
    ensures |r| == |actions|
  {
    if actions == [] then []
    else
      var s := Run(cfg, actions[..|actions| - 1]);
      var a := actions[|actions| - 1];
      LeaseActions(cfg, actions[..|actions| - 1]) + [if Enabled(s, a) then LeaseAction(s, a) else L.Tick(0)]
  }

  lemma {:induction false} TickZero(cfg: L.Config, s: L.State)
    ensures L.Apply(cfg, s, L.Tick(0)) == s
  {
  }

  /** Every scheduler run is a lease run, so exclusion and the log theorems carry over. */
  lemma {:induction false} RunIsLeaseRun(cfg: Config, actions: seq<Action>)
    ensures L.Run(cfg.lease, LeaseActions(cfg, actions)) == Run(cfg, actions).core
  {
    if actions == [] {
    } else {
      var before, a := actions[..|actions| - 1], actions[|actions| - 1];
      var s := Run(cfg, before);
      RunIsLeaseRun(cfg, before);
      TickZero(cfg.lease, s.core);
      L.RunSnoc(cfg.lease, LeaseActions(cfg, before), if Enabled(s, a) then LeaseAction(s, a) else L.Tick(0));
      hide Enabled, LeaseAction, L.Apply, L.Run;
    }
  }

  lemma {:induction false} LeasePrefixes(cfg: Config, actions: seq<Action>, n: nat)
    requires n <= |actions|
    ensures LeaseActions(cfg, actions)[..n] == LeaseActions(cfg, actions[..n])
  {
    if n < |actions| {
      var before := actions[..|actions| - 1];
      LeasePrefixes(cfg, before, n);
      assert before[..n] == actions[..n];
      hide Enabled, LeaseAction, Run;
    } else {
      assert actions[..n] == actions;
    }
  }

  /** The claimants of this job finish or die within the lease, at every moment of the run before its end. */
  ghost predicate AlwaysInTime(cfg: Config, actions: seq<Action>, id: L.JobId) {
    forall n | 0 <= n < |actions| :: L.InTime(cfg.lease, Run(cfg, actions[..n]).core, id)
  }

  /** Under the timing assumption for a job, it has no two workers, whatever happens to other jobs. */
  lemma {:induction false} SchedulerExclusion(cfg: Config, actions: seq<Action>, id: L.JobId)
    requires AlwaysInTime(cfg, actions, id)
    ensures L.Exclusive(Run(cfg, actions).core, id) && L.RowNamesClaimant(Run(cfg, actions).core, id)
  {
    var lease := LeaseActions(cfg, actions);
    forall n | 0 <= n < |lease| ensures L.InTime(cfg.lease, L.Run(cfg.lease, lease[..n]), id) {
      LeasePrefixes(cfg, actions, n);
      RunIsLeaseRun(cfg, actions[..n]);
    }
    L.LeaseExclusion(cfg.lease, lease, id);
    RunIsLeaseRun(cfg, actions);
  }

  // ----- what holds with no timing assumption -----

  predicate SameSpec(a: L.Job, b: L.Job) {
    a.id == b.id && a.kind == b.kind && a.schedule == b.schedule
  }

  /** Stored rows keep the kind and schedule they were submitted with; claims and rows belong to submitted jobs. */
  ghost predicate Known(s: State) {
    && (forall id <- s.jobs :: s.jobs[id].id == id)
    && (forall id <- s.core.table :: id in s.jobs && SameSpec(s.core.table[id].job, s.jobs[id]))
    && forall c <- s.core.claims :: c.id in s.jobs
  }

  ghost predicate PlanSound(cfg: Config, s: State, c: L.Claim, plan: Plan) {
    && c in s.core.claims && c.id in s.jobs && plan.at <= s.core.clock
    && plan.next == NextMinute(cfg.decodes, s.jobs[c.id], plan.at)
  }

  ghost predicate PlansSound(cfg: Config, s: State) {
    forall c <- s.plans :: PlanSound(cfg, s, c, s.plans[c])
  }

  /** A stored time is the next minute of the job's own expression after the reading. */
  ghost predicate EventTrue(cfg: Config, job: L.Job, e: Event) {
    match e
    case Fires(_, minute, readAt) =>
      job.schedule.Recurring? && NextAfter(job.schedule.expr, readAt) == Ok(minute)
    case Ends(_, readAt) => NextMinute(cfg.decodes, job, readAt) == None
  }

  ghost predicate EventSound(cfg: Config, s: State, e: Event) {
    e.id in s.jobs && e.readAt <= s.core.clock && EventTrue(cfg, s.jobs[e.id], e)
  }

  lemma {:induction false} SubmittedTrue(cfg: Config, job: L.Job)
    ensures forall e <- Submitted(job) :: e.id == job.id && e.readAt == job.createdAt && EventTrue(cfg, job, e)
  {
  }

  lemma {:induction false} FinishedTrue(cfg: Config, job: L.Job, c: L.Claim, plan: Plan)
    ensures Finished(c, plan).id == c.id && Finished(c, plan).readAt == plan.at
    ensures plan.next == NextMinute(cfg.decodes, job, plan.at) ==> EventTrue(cfg, job, Finished(c, plan))
  {
  }

  ghost predicate LogSound(cfg: Config, s: State) {
    forall e <- s.log :: EventSound(cfg, s, e)
  }

  ghost predicate Ended(s: State, id: L.JobId) {
    exists readAt :: Ends(id, readAt) in s.log
  }

  ghost predicate GoneMeansEnded(s: State) {
    forall id <- s.jobs :: id in s.core.table || Ended(s, id)
  }

  lemma {:induction false} ApplyKeepsKnown(cfg: Config, s: State, a: Action)
    requires Known(s)
    ensures Known(Apply(cfg, s, a))
  {
    hide FirstRun, NextMinute, Submitted, Finished, Instant;
  }

  lemma {:induction false} ApplyKeepsPlans(cfg: Config, s: State, a: Action)
    requires Known(s) && PlansSound(cfg, s)
    ensures PlansSound(cfg, Apply(cfg, s, a))
  {
    hide FirstRun, NextMinute, Submitted, Finished, Instant;
    var s' := Apply(cfg, s, a);
    forall c <- s'.plans ensures PlanSound(cfg, s', c, s'.plans[c]) {
      if c in s.plans { assert PlanSound(cfg, s, c, s.plans[c]); }
    }
  }

  lemma {:induction false} EventStays(cfg: Config, s: State, a: Action, e: Event)
    requires EventSound(cfg, s, e)
    ensures EventSound(cfg, Apply(cfg, s, a), e)
  {
    hide FirstRun, NextMinute, Submitted, Finished, Instant, EventTrue;
  }

  lemma {:induction false} SubmitAppends(cfg: Config, s: State, job: L.Job)
    requires Enabled(s, Submit(job))
    ensures var s' := Apply(cfg, s, Submit(job));
      s'.log == s.log + Submitted(job) && s'.jobs == s.jobs[job.id := job] && s'.core.clock == s.core.clock
  {
    hide FirstRun, Submitted;
  }

  lemma {:induction false} FinishAppends(cfg: Config, s: State, c: L.Claim)
    requires Enabled(s, Finish(c))
    ensures var s' := Apply(cfg, s, Finish(c));
      s'.log == s.log + [Finished(c, s.plans[c])] && s'.jobs == s.jobs && s'.core.clock == s.core.clock
  {
    hide Finished, Instant;
  }

  lemma {:induction false} OthersAppendNothing(cfg: Config, s: State, a: Action)
    requires !Enabled(s, a) || (!a.Submit? && !a.Finish?)
    ensures Apply(cfg, s, a).log == s.log
  {
    hide NextMinute, L.Apply;
  }

  lemma {:induction false} SubmittedIsSound(cfg: Config, s: State, job: L.Job, e: Event)
    ensures Enabled(s, Submit(job)) && e in Submitted(job) ==> EventSound(cfg, Apply(cfg, s, Submit(job)), e)
  {
    if Enabled(s, Submit(job)) && e in Submitted(job) {
      SubmitAppends(cfg, s, job);
      assert job.createdAt <= s.core.clock;
      hide Apply, Enabled, Submitted, EventTrue;
      SubmittedTrue(cfg, job);
    }
  }

  lemma {:induction false} FinishedIsSound(cfg: Config, s: State, c: L.Claim)
    requires Enabled(s, Finish(c))
    ensures PlansSound(cfg, s) ==> EventSound(cfg, Apply(cfg, s, Finish(c)), Finished(c, s.plans[c]))
  {
    if PlansSound(cfg, s) {
      FinishAppends(cfg, s, c);
      assert PlanSound(cfg, s, c, s.plans[c]);
      hide Apply, Enabled, Finished, EventTrue, NextMinute;
      FinishedTrue(cfg, s.jobs[c.id], c, s.plans[c]);
    }
  }

  lemma {:induction false} NewEventSound(cfg: Config, s: State, a: Action, e: Event)
    ensures PlansSound(cfg, s) && e in Apply(cfg, s, a).log && e !in s.log ==> EventSound(cfg, Apply(cfg, s, a), e)
  {
    hide Apply, EventSound, PlansSound, Submitted, Finished;
    if Enabled(s, a) && a.Submit? {
      SubmitAppends(cfg, s, a.job);
      SubmittedIsSound(cfg, s, a.job, e);
    } else if Enabled(s, a) && a.Finish? {
      FinishAppends(cfg, s, a.claim);
      FinishedIsSound(cfg, s, a.claim);
    } else {
      OthersAppendNothing(cfg, s, a);
    }
  }

  lemma {:induction false} ApplyKeepsLog(cfg: Config, s: State, a: Action)
    requires Known(s) && PlansSound(cfg, s) && LogSound(cfg, s)
    ensures LogSound(cfg, Apply(cfg, s, a))
  {
    forall e <- Apply(cfg, s, a).log ensures EventSound(cfg, Apply(cfg, s, a), e) {
      if e in s.log { EventStays(cfg, s, a, e); } else { NewEventSound(cfg, s, a, e); }
    }
  }

  lemma {:induction false} ApplyKeepsEnded(cfg: Config, s: State, a: Action)
    requires Known(s) && GoneMeansEnded(s)
    ensures GoneMeansEnded(Apply(cfg, s, a))
  {
    hide FirstRun, NextMinute, NextAfter, Submitted;
    var s' := Apply(cfg, s, a);
    forall id <- s'.jobs ensures id in s'.core.table || Ended(s', id) {
      if id in s.jobs && id !in s'.core.table {
        if id in s.core.table {
          assert a.Finish? && Ends(id, s.plans[a.claim].at) in s'.log;
        } else {
          var readAt :| Ends(id, readAt) in s.log;
          assert Ends(id, readAt) in s'.log;
        }
      }
    }
  }

  ghost predicate Sound(cfg: Config, s: State) {
    Known(s) && PlansSound(cfg, s) && LogSound(cfg, s) && GoneMeansEnded(s)
  }

  lemma {:induction false} RunIsSound(cfg: Config, actions: seq<Action>)
    ensures Sound(cfg, Run(cfg, actions))
  {
    if actions == [] {
    } else {
      var before, a := actions[..|actions| - 1], actions[|actions| - 1];
      var s := Run(cfg, before);
      RunIsSound(cfg, before);
      ApplyKeepsKnown(cfg, s, a);
      ApplyKeepsPlans(cfg, s, a);
      ApplyKeepsLog(cfg, s, a);
      ApplyKeepsEnded(cfg, s, a);
      hide Known, PlansSound, LogSound, GoneMeansEnded, Apply;
    }
  }

  /** Whether a job goes on: the kind decodes, it recurs, and there is a match within the horizon. */
  lemma {:induction false} NextMinuteIff(decodes: string -> bool, job: L.Job, t: int)
    ensures NextMinute(decodes, job, t) ==
      if Continues(decodes, job, t) then Some(NextAfter(job.schedule.expr, t).value) else None
  {
  }

  /**
   A job leaves the store only after a completion that read a time at which its kind did not decode, or
   it was a one-shot, or its expression had no next match.
   */
  lemma {:induction false} JobLeavesOnlyAtItsEnd(cfg: Config, actions: seq<Action>, id: L.JobId)
    requires var s := Run(cfg, actions); id in s.jobs && id !in s.core.table
    ensures var s := Run(cfg, actions);
      exists readAt :: Ends(id, readAt) in s.log && !Continues(cfg.decodes, s.jobs[id], readAt)
  {
    RunIsSound(cfg, actions);
    var s := Run(cfg, actions);
    assert Ended(s, id);
    var readAt :| Ends(id, readAt) in s.log;
    assert EventSound(cfg, s, Ends(id, readAt));
    NextMinuteIff(cfg.decodes, s.jobs[id], readAt);
    hide Run, Continues, NextMinute;
    assert Ends(id, readAt) in s.log && !Continues(cfg.decodes, s.jobs[id], readAt);
  }

  /** A completion keeps the job, free and with its next match as the time, exactly when the job goes on. */
  lemma {:induction false} CompletionKeepsJobIff(cfg: Config, actions: seq<Action>, c: L.Claim)
    requires Enabled(Run(cfg, actions), Finish(c))
    ensures var s := Run(cfg, actions);
      c.id in s.jobs && var table := Apply(cfg, s, Finish(c)).core.table;
      var job, readAt := s.jobs[c.id], s.plans[c].at;
      && (c.id in table <==> c.id in s.core.table && Continues(cfg.decodes, job, readAt))
      && (c.id in table ==>
            && table[c.id].claimedAt.None? && table[c.id].workerId.None?
            && table[c.id].job.nextRunAt == NextAfter(job.schedule.expr, readAt).value * 60_000_000_000
            && table[c.id].job.lastRunAt == Some(s.core.clock))
  {
    RunIsSound(cfg, actions);
    var s := Run(cfg, actions);
    assert PlanSound(cfg, s, c, s.plans[c]);
    NextMinuteIff(cfg.decodes, s.jobs[c.id], s.plans[c].at);
    hide *;
    CompletionRow(cfg, s, c);
  }

  /** What a completion does to its job's row, in terms of the computed next minute. */
  lemma {:induction false} CompletionRow(cfg: Config, s: State, c: L.Claim)
    requires Enabled(s, Finish(c))
    ensures var table := Apply(cfg, s, Finish(c)).core.table;
      var next := s.plans[c].next;
      && (c.id in table <==> c.id in s.core.table && next.Some?)
      && (c.id in table ==>
            && table[c.id].claimedAt.None? && table[c.id].workerId.None?
            && table[c.id].job.nextRunAt == next.value * 60_000_000_000
            && table[c.id].job.lastRunAt == Some(s.core.clock))
  {
    hide NextMinute, NextAfter, FirstRun, Finished;
  }

  // ----- one-shot jobs -----

  /** The job is not free before `at`, and no claim of it is older. */
  ghost predicate NotBefore(core: L.State, id: L.JobId, at: int) {
    && (id in core.table ==> match core.table[id].claimedAt
                             case None => core.table[id].job.nextRunAt >= at
                             case Some(t) => t >= at)
    && forall c <- core.claims :: c.id == id ==> c.stamp >= at
  }

  lemma {:induction false} LeaseNotBefore(cfg: L.Config, core: L.State, a: L.Action, id: L.JobId, at: int)
    requires NotBefore(core, id, at)
    requires a.Insert? && a.job.id == id ==> a.job.nextRunAt >= at
    requires a.Complete? && a.claim.id == id ==> a.next.None?
    ensures NotBefore(L.Apply(cfg, core, a), id, at)
  {
  }

  /** A one-shot job was stored with its own time, is not free before it, and was not claimed before it. */
  ghost predicate OnTime(s: State, id: L.JobId) {
    id in s.jobs && s.jobs[id].schedule.Once? ==>
      s.jobs[id].nextRunAt == s.jobs[id].schedule.at && NotBefore(s.core, id, s.jobs[id].schedule.at)
  }

  lemma {:induction false} OncePlansNothing(cfg: Config, s: State, c: L.Claim)
    requires c in s.plans && c.id in s.jobs && s.jobs[c.id].schedule.Once?
    ensures PlansSound(cfg, s) ==> s.plans[c].next.None?
  {
    hide NextMinute, NextAfter;
    if PlansSound(cfg, s) {
      assert PlanSound(cfg, s, c, s.plans[c]);
      NextMinuteIff(cfg.decodes, s.jobs[c.id], s.plans[c].at);
    }
  }

  lemma {:induction false} FirstOfOnce(schedule: L.Schedule, now: int, next: int)
    requires FirstRun(schedule, now) == Ok(next) && schedule.Once?
    ensures next == schedule.at
  {
  }

  /** A job that is new was neither stored nor claimed before. */
  lemma {:induction false} NewIsOnTime(cfg: Config, s: State, job: L.Job)
    requires Known(s) && Enabled(s, Submit(job)) && job.schedule.Once?
    ensures job.nextRunAt == job.schedule.at && NotBefore(s.core, job.id, job.schedule.at)
  {
    FirstOfOnce(job.schedule, job.createdAt, job.nextRunAt);
    hide FirstRun;
  }

  lemma {:induction false} ApplyOnTime(cfg: Config, s: State, a: Action, id: L.JobId)
    requires Known(s) && PlansSound(cfg, s) && OnTime(s, id)
    ensures OnTime(Apply(cfg, s, a), id)
  {
    var s' := Apply(cfg, s, a);
    if Enabled(s, a) && id in s'.jobs && s'.jobs[id].schedule.Once? {
      if a.Submit? && a.job.id == id { NewIsOnTime(cfg, s, a.job); }
      if a.Finish? && a.claim.id == id { OncePlansNothing(cfg, s, a.claim); }
      hide PlansSound, NotBefore, FirstRun, NextMinute, Submitted, Finished, L.Apply;
      LeaseNotBefore(cfg.lease, s.core, LeaseAction(s, a), id, s'.jobs[id].schedule.at);
    }
  }

  /** In every run a one-shot job's first run is its own time, and nobody claims it before. */
  lemma {:induction false} OneShotIsNeverEarly(cfg: Config, actions: seq<Action>, id: L.JobId)
    ensures OnTime(Run(cfg, actions), id)
  {
    if actions == [] {
    } else {
      var before := actions[..|actions| - 1];
      OneShotIsNeverEarly(cfg, before, id);
      RunIsSound(cfg, before);
      ApplyOnTime(cfg, Run(cfg, before), actions[|actions| - 1], id);
      hide OnTime, Known, PlansSound, LogSound, GoneMeansEnded, Apply;
    }
  }

  /** A one-shot job is first due at its own time, a recurring one at its next match after the creation. */
  ghost predicate FirstTime(job: L.Job) {
    match job.schedule
    case Once(at) => job.nextRunAt == at
    case Recurring(expr) =>
      NextAfter(expr, job.createdAt).Ok? && job.nextRunAt == NextAfter(expr, job.createdAt).value * 60_000_000_000
  }

  lemma {:induction false} FirstTimes(cfg: Config, actions: seq<Action>, id: L.JobId)
    ensures id in Run(cfg, actions).jobs ==> FirstTime(Run(cfg, actions).jobs[id])
  {
    if actions == [] {
    } else {
      FirstTimes(cfg, actions[..|actions| - 1], id);
      hide NextAfter, NextMinute, LeaseAction, Submitted, Finished, L.Apply;
    }
  }

  predicate Decodable(cfg: Config, job: L.Job) {
    cfg.decodes(job.kind) && job.schedule.Recurring?
  }

  ghost predicate Yearly(job: L.Job) {
    job.schedule.Recurring? && Parse(job.schedule.expr).Ok? && FiresEveryYear(Parse(job.schedule.expr).value)
  }

  lemma {:induction false} YearlyHasNext(cfg: Config, job: L.Job, t: int)
    ensures Decodable(cfg, job) && Yearly(job) ==> NextMinute(cfg.decodes, job, t).Some?
  {
    if Decodable(cfg, job) && Yearly(job) {
      HorizonIsComplete(job.schedule.expr);
      assert NextAfter(job.schedule.expr, t).Ok?;
      hide Parse, FiresEveryYear, NextAfter;
    }
  }

  /** A recurring job whose kind decodes and whose expression selects a yearly date is stored for ever. */
  lemma {:induction false} YearlyJobIsStoredForever(cfg: Config, actions: seq<Action>, id: L.JobId)
    ensures var s := Run(cfg, actions);
      id in s.jobs && Decodable(cfg, s.jobs[id]) && Yearly(s.jobs[id]) ==> id in s.core.table
  {
    var s := Run(cfg, actions);
    if id in s.jobs && id !in s.core.table {
      JobLeavesOnlyAtItsEnd(cfg, actions, id);
      hide *;
      var readAt :| Ends(id, readAt) in s.log && !Continues(cfg.decodes, s.jobs[id], readAt);
      NextMinuteIff(cfg.decodes, s.jobs[id], readAt);
      YearlyHasNext(cfg, s.jobs[id], readAt);
    }
  }

  /** Each stored time matches the job's expression and lies after the reading it was computed from. */
  lemma {:induction false} StoredTimesMatch(cfg: Config, actions: seq<Action>, e: Event)
    requires e in Run(cfg, actions).log && e.Fires?
    ensures var s := Run(cfg, actions);
      && e.id in s.jobs && s.jobs[e.id].schedule.Recurring?
      && var spec := Parse(s.jobs[e.id].schedule.expr);
         && spec.Ok? && Matches(spec.value, e.minute) && e.readAt < e.minute * NS_PER_MINUTE
         && forall t | InWindow(e.readAt, t) && t < e.minute :: !Matches(spec.value, t)
  {
    RunIsSound(cfg, actions);
    assert EventSound(cfg, Run(cfg, actions), e);
    hide Run, Parse, Matches;
  }

  // ----- with the timing assumption: stored times increase -----

  /** The last time stored for a job. */
  function LastMinute(log: seq<Event>, id: L.JobId): Option<int> {
    if log == [] then None
    else
      var e := log[|log| - 1];
      if e.Fires? && e.id == id then Some(e.minute) else LastMinute(log[..|log| - 1], id)
  }

  predicate Follows(log: seq<Event>, e: Event) {
    e.Fires? && LastMinute(log, e.id).Some? ==> LastMinute(log, e.id).value < e.minute
  }

  /** The times stored for one job increase. */
  predicate Increasing(log: seq<Event>, id: L.JobId) {
    log == [] ||
    var before, e := log[..|log| - 1], log[|log| - 1];
    Increasing(before, id) && (e.id == id ==> Follows(before, e))
  }

  /** Once a job has been claimed, its last stored time lies in the past. */
  predicate Passed(s: State, id: L.JobId, minute: int)
    requires id in s.core.table
  {
    var row := s.core.table[id];
    if row.claimedAt.Some? then minute * NS_PER_MINUTE <= s.core.clock
    else minute * NS_PER_MINUTE <= s.core.clock || row.job.nextRunAt == minute * NS_PER_MINUTE
  }

  predicate RowPassed(s: State, id: L.JobId)
    requires id in s.core.table
  {
    LastMinute(s.log, id).Some? ==> Passed(s, id, LastMinute(s.log, id).value)
  }

  ghost predicate RowsPassed(s: State) {
    forall id <- s.core.table :: RowPassed(s, id)
  }

  /** A plan's reading lies after the last stored time. */
  predicate PlanPassed(s: State, c: L.Claim)
    requires c in s.plans
  {
    LastMinute(s.log, c.id).Some? ==> LastMinute(s.log, c.id).value * NS_PER_MINUTE <= s.plans[c].at
  }

  ghost predicate PlansPassed(s: State, id: L.JobId) {
    forall c <- s.plans :: c.id == id ==> PlanPassed(s, c)
  }

  lemma {:induction false} LastSnoc(log: seq<Event>, e: Event, id: L.JobId)
    ensures LastMinute(log + [e], id) == if e.Fires? && e.id == id then Some(e.minute) else LastMinute(log, id)
    ensures Increasing(log + [e], id) <==> Increasing(log, id) && (e.id == id ==> Follows(log, e))
  {
    assert (log + [e])[..|log|] == log;
  }

  lemma {:induction false} LastOfUnknown(cfg: Config, s: State, log: seq<Event>, id: L.JobId)
    requires (forall e <- log :: EventSound(cfg, s, e)) && id !in s.jobs
    ensures LastMinute(log, id) == None
  {
    if log == [] {
    } else {
      assert EventSound(cfg, s, log[|log| - 1]);
      LastOfUnknown(cfg, s, log[..|log| - 1], id);
    }
  }

  /** Everything the increase relies on. */
  ghost predicate Ordered(cfg: Config, s: State, id: L.JobId) {
    Sound(cfg, s) && RowsPassed(s) && PlansPassed(s, id) && Increasing(s.log, id)
  }

  ghost predicate Alone(s: State, id: L.JobId) {
    L.Exclusive(s.core, id) && L.RowNamesClaimant(s.core, id)
  }

  /** Actions that leave the log alone. */
  lemma {:induction false} QuietKeepsRows(cfg: Config, s: State, a: Action)
    requires Known(s) && RowsPassed(s) && Enabled(s, a) && !a.Submit? && !a.Finish?
    ensures RowsPassed(Apply(cfg, s, a))
  {
    var s' := Apply(cfg, s, a);
    hide LastMinute, NextMinute, FirstRun, Known;
    forall id <- s'.core.table ensures RowPassed(s', id) {
      assert id in s.core.table && RowPassed(s, id);
    }
  }

  lemma {:induction false} QuietKeepsPlans(cfg: Config, s: State, a: Action, id: L.JobId)
    requires Alone(s, id) && RowsPassed(s) && PlansPassed(s, id) && Enabled(s, a) && !a.Submit? && !a.Finish?
    ensures PlansPassed(Apply(cfg, s, a), id)
  {
    var s' := Apply(cfg, s, a);
    hide LastMinute, NextMinute, FirstRun, L.Exclusive;
    assert s'.log == s.log;
    forall c <- s'.plans | c.id == id ensures PlanPassed(s', c) {
      if c in s.plans {
        assert PlanPassed(s, c);
      } else {
        assert a == Compute(c) && s'.plans[c].at == s.core.clock && L.Named(s.core, c);
        assert RowPassed(s, c.id);
      }
    }
  }

  lemma {:induction false} PlannedIsLater(decodes: string -> bool, job: L.Job, t: int)
    ensures NextMinute(decodes, job, t).Some? ==> t < NextMinute(decodes, job, t).value * NS_PER_MINUTE
  {
    hide Parse, Matches, NextAfter;
  }

  lemma {:induction false} FinishIsIncreasing(cfg: Config, s: State, c: L.Claim)
    requires Ordered(cfg, s, c.id) && Enabled(s, Finish(c))
    ensures Follows(s.log, Finished(c, s.plans[c]))
  {
    hide LastMinute, NextMinute, Known, LogSound, GoneMeansEnded, RowsPassed, Increasing, FirstRun;
    assert PlanSound(cfg, s, c, s.plans[c]) && PlanPassed(s, c);
    PlannedIsLater(cfg.decodes, s.jobs[c.id], s.plans[c].at);
  }

  /** The effect of a completion on one row of the job it completes, and on the others. */
  lemma {:induction false} FinishedRow(cfg: Config, s: State, c: L.Claim, id: L.JobId)
    requires Enabled(s, Finish(c)) && id in Apply(cfg, s, Finish(c)).core.table
    ensures var s' := Apply(cfg, s, Finish(c));
      && s'.core.clock == s.core.clock && s'.log == s.log + [Finished(c, s.plans[c])]
      && id in s.core.table
      && (id != c.id ==> s'.core.table[id] == s.core.table[id])
      && (id == c.id ==>
            && s.plans[c].next.Some? && s'.core.table[id].claimedAt.None?
            && s'.core.table[id].job.nextRunAt == s.plans[c].next.value * NS_PER_MINUTE)
  {
    hide Finished, FirstRun;
  }

  lemma {:induction false} FinishKeepsRows(cfg: Config, s: State, c: L.Claim)
    requires RowsPassed(s) && Enabled(s, Finish(c))
    ensures RowsPassed(Apply(cfg, s, Finish(c)))
  {
    var s' := Apply(cfg, s, Finish(c));
    forall id <- s'.core.table ensures RowPassed(s', id) {
      FinishedRow(cfg, s, c, id);
      LastSnoc(s.log, Finished(c, s.plans[c]), id);
      assert RowPassed(s, id);
      hide Apply, Enabled, LastMinute, Increasing, Follows, RowsPassed;
    }
  }

  lemma {:induction false} FinishKeepsPlans(cfg: Config, s: State, c: L.Claim, id: L.JobId)
    requires Alone(s, id) && Sound(cfg, s) && PlansPassed(s, id) && Enabled(s, Finish(c))
    ensures PlansPassed(Apply(cfg, s, Finish(c)), id)
  {
    var s' := Apply(cfg, s, Finish(c));
    var e := Finished(c, s.plans[c]);
    assert s'.log == s.log + [e] && s'.plans == s.plans - {c} && e.id == c.id;
    forall d <- s'.plans | d.id == id ensures PlanPassed(s', d) {
      LastSnoc(s.log, e, d.id);
      OtherClaim(cfg, s, c, d);
      assert PlanPassed(s, d);
      hide Apply, Enabled, LastMinute, Increasing, Follows, Finished, Alone, Sound, PlansPassed;
    }
  }

  lemma {:induction false} FinishKeepsOrder(cfg: Config, s: State, c: L.Claim, id: L.JobId)
    requires Alone(s, id) && Ordered(cfg, s, id) && Enabled(s, Finish(c))
    ensures var s' := Apply(cfg, s, Finish(c)); RowsPassed(s') && PlansPassed(s', id) && Increasing(s'.log, id)
  {
    FinishKeepsRows(cfg, s, c);
    FinishKeepsPlans(cfg, s, c, id);
    if c.id == id { FinishIsIncreasing(cfg, s, c); }
    assert Finished(c, s.plans[c]).id == c.id;
    LastSnoc(s.log, Finished(c, s.plans[c]), id);
    hide Increasing, LastMinute, Follows, Sound, RowsPassed, PlansPassed, Alone, Finished;
  }

  lemma {:induction false} OtherClaim(cfg: Config, s: State, c: L.Claim, d: L.Claim)
    requires Alone(s, d.id) && Sound(cfg, s) && c in s.plans && d in s.plans && c != d
    ensures c.id != d.id
  {
    assert PlanSound(cfg, s, c, s.plans[c]) && PlanSound(cfg, s, d, s.plans[d]);
  }

  lemma {:induction false} SubmittedEvent(job: L.Job)
    requires FirstRun(job.schedule, job.createdAt) == Ok(job.nextRunAt)
    ensures Submitted(job) == [] ||
      exists minute :: Submitted(job) == [Fires(job.id, minute, job.createdAt)]
        && job.nextRunAt == minute * NS_PER_MINUTE
  {
    if job.schedule.Recurring? {
      var next := NextAfter(job.schedule.expr, job.createdAt);
      assert next.Ok?;
      assert Submitted(job) == [Fires(job.id, next.value, job.createdAt)];
    }
  }

  /** A new job changes the last stored time of no other. */
  lemma {:induction false} SubmittedLog(cfg: Config, s: State, job: L.Job, id: L.JobId)
    requires Sound(cfg, s) && Enabled(s, Submit(job))
    ensures var log := s.log + Submitted(job);
      && (Increasing(s.log, id) ==> Increasing(log, id))
      && (id != job.id ==> LastMinute(log, id) == LastMinute(s.log, id))
      && (id == job.id && LastMinute(log, id).Some? ==> LastMinute(log, id).value * NS_PER_MINUTE == job.nextRunAt)
  {
    LastOfUnknown(cfg, s, s.log, job.id);
    SubmittedEvent(job);
    hide Increasing, LastMinute, FirstRun, Submitted, NextAfter, Sound;
    if Submitted(job) != [] {
      LastSnoc(s.log, Submitted(job)[0], id);
      assert Submitted(job) == [Submitted(job)[0]];
    } else {
      assert s.log + [] == s.log;
    }
  }

  lemma {:induction false} SubmittedRow(cfg: Config, s: State, job: L.Job, id: L.JobId)
    requires Known(s) && Enabled(s, Submit(job)) && id in Apply(cfg, s, Submit(job)).core.table
    ensures var s' := Apply(cfg, s, Submit(job));
      && s'.core.clock == s.core.clock && s'.log == s.log + Submitted(job) && s'.plans == s.plans
      && (id != job.id ==> id in s.core.table && s'.core.table[id] == s.core.table[id])
      && (id == job.id ==> s'.core.table[id] == L.Row(job, None, None, 0))
  {
    hide Submitted, FirstRun;
  }

  lemma {:induction false} SubmitKeepsRows(cfg: Config, s: State, job: L.Job)
    requires Sound(cfg, s) && RowsPassed(s) && Enabled(s, Submit(job))
    ensures RowsPassed(Apply(cfg, s, Submit(job)))
  {
    var s' := Apply(cfg, s, Submit(job));
    forall id <- s'.core.table ensures RowPassed(s', id) {
      SubmittedRow(cfg, s, job, id);
      SubmittedLog(cfg, s, job, id);
      assert id != job.id ==> RowPassed(s, id);
      hide Apply, Enabled, LastMinute, Increasing, RowsPassed, Submitted, Sound;
    }
  }

  lemma {:induction false} SubmitKeepsPlans(cfg: Config, s: State, job: L.Job, id: L.JobId)
    requires Sound(cfg, s) && PlansPassed(s, id) && Enabled(s, Submit(job))
    ensures PlansPassed(Apply(cfg, s, Submit(job)), id)
  {
    var s' := Apply(cfg, s, Submit(job));
    assert s'.plans == s.plans && s'.log == s.log + Submitted(job);
    forall d <- s'.plans | d.id == id ensures PlanPassed(s', d) {
      SubmittedLog(cfg, s, job, d.id);
      assert PlanPassed(s, d) && PlanSound(cfg, s, d, s.plans[d]);
      hide Apply, LastMinute, Increasing, PlansPassed, Submitted, Sound;
    }
  }

  lemma {:induction false} SubmitKeepsOrder(cfg: Config, s: State, job: L.Job, id: L.JobId)
    requires Ordered(cfg, s, id) && Enabled(s, Submit(job))
    ensures var s' := Apply(cfg, s, Submit(job)); RowsPassed(s') && PlansPassed(s', id) && Increasing(s'.log, id)
  {
    SubmitKeepsRows(cfg, s, job);
    SubmitKeepsPlans(cfg, s, job, id);
    SubmittedLog(cfg, s, job, id);
    hide Increasing, LastMinute, Sound, RowsPassed, PlansPassed, Submitted;
  }

  lemma {:induction false} RunIsOrdered(cfg: Config, actions: seq<Action>, id: L.JobId)
    requires AlwaysInTime(cfg, actions, id)
    ensures Ordered(cfg, Run(cfg, actions), id)
  {
    RunIsSound(cfg, actions);
    if actions == [] {
    } else {
      var n := |actions| - 1;
      var s, a := Run(cfg, actions[..n]), actions[n];
      forall k | 0 <= k < n ensures L.InTime(cfg.lease, Run(cfg, actions[..n][..k]).core, id) {
        assert actions[..n][..k] == actions[..k];
      }
      assert AlwaysInTime(cfg, actions[..n], id);
      SchedulerExclusion(cfg, actions[..n], id);
      RunIsOrdered(cfg, actions[..n], id);
      assert Run(cfg, actions) == Apply(cfg, s, a);
      hide AlwaysInTime, Run, RowsPassed, PlansPassed, Increasing, L.Exclusive, L.RowNamesClaimant;
      if Enabled(s, a) {
        if a.Submit? {
          SubmitKeepsOrder(cfg, s, a.job, id);
        } else if a.Finish? {
          FinishKeepsOrder(cfg, s, a.claim, id);
        } else {
          QuietKeepsRows(cfg, s, a);
          QuietKeepsPlans(cfg, s, a, id);
          OthersAppendNothing(cfg, s, a);
        }
      }
    }
  }

  lemma {:induction false} LastIsAtLeast(log: seq<Event>, i: nat)
    requires i < |log| && log[i].Fires? && Increasing(log, log[i].id)
    ensures LastMinute(log, log[i].id).Some? && log[i].minute <= LastMinute(log, log[i].id).value
  {
    if i < |log| - 1 {
      assert log[..|log| - 1][i] == log[i];
      LastIsAtLeast(log[..|log| - 1], i);
    }
  }

  lemma {:induction false} IncreasingPrefix(log: seq<Event>, j: nat, id: L.JobId)
    requires Increasing(log, id) && j <= |log|
    ensures Increasing(log[..j], id)
  {
    if j < |log| {
      IncreasingPrefix(log[..|log| - 1], j, id);
      assert log[..|log| - 1][..j] == log[..j];
    } else {
      assert log[..j] == log;
    }
  }

  /**
   If the claimants of a job keep to its lease, the times stored for it strictly increase, whatever
   other jobs do.
   */
  lemma {:induction false} StoredTimesIncrease(cfg: Config, actions: seq<Action>, i: nat, j: nat)
    requires var log := Run(cfg, actions).log;
      i < j < |log| && log[i].Fires? && log[j].Fires? && log[i].id == log[j].id
    requires AlwaysInTime(cfg, actions, Run(cfg, actions).log[i].id)
    ensures Run(cfg, actions).log[i].minute < Run(cfg, actions).log[j].minute
  {
    var log := Run(cfg, actions).log;
    var id := log[i].id;
    RunIsOrdered(cfg, actions, id);
    IncreasingPrefix(log, j + 1, id);
    assert log[..j + 1][..j] == log[..j] && log[..j + 1][j] == log[j];
    assert Increasing(log[..j], id) && Follows(log[..j], log[j]);
    assert log[..j][i] == log[i];
    hide Run, Increasing, LastMinute;
    LastIsAtLeast(log[..j], i);
  }
}
