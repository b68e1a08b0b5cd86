/**
 The scheduler that drives a job store: the parse cache, one iteration of the polling loop,
 and the bookkeeping after a job has run.
 */
module Scheduler {
  import opened Prelude
  import opened Cron
  import opened Lease
  import opened InMemoryStore

  const CLAIM_BATCH: nat := 16
  const NS_PER_SECOND: int := 1_000_000_000

  /** The next whole minute of a job that has just run, as read at `t`; none ends the job. */
  function NextMinute(decodes: string -> bool, job: Job, t: int): Option<int> {
    if !decodes(job.kind) then None
    else match job.schedule
    case Once(_) => None
    case Recurring(expr) =>
      match NextAfter(expr, t)
      case Ok(minute) => Some(minute)
      case Err(_) => None
  }

  /** The kind still decodes, and a recurring schedule has another match. */
  predicate Continues(decodes: string -> bool, job: Job, t: int) {
    decodes(job.kind) && job.schedule.Recurring? && NextAfter(job.schedule.expr, t).Ok?
  }

  function Instant(minute: Option<int>): Option<int> {
    match minute
    case None => None
    case Some(m) => Some(m * NS_PER_MINUTE)
  }

  /** First run of a new job. */
  function FirstRun(schedule: Schedule, now: int): Result<int, CronError> {
    match schedule
    case Once(at) => Ok(at)
    case Recurring(expr) =>
      match NextAfter(expr, now)
      case Ok(minute) => Ok(minute * NS_PER_MINUTE)
      case Err(e) => Err(e)
  }

  /** Every entry is what a fresh parse of its expression gives. */
  ghost predicate FreshlyParsed(entries: map<string, CronSpec>) {
    forall expr <- entries :: Parse(expr) == Ok(entries[expr])
  }

  function Remembered(entries: map<string, CronSpec>, expr: string): map<string, CronSpec> {
    match Parse(expr)
    case Ok(spec) => entries[expr := spec]
    case Err(_) => entries
  }

  lemma {:induction false} RememberedIsFresh(entries: map<string, CronSpec>, expr: string)
    requires FreshlyParsed(entries)
    ensures FreshlyParsed(Remembered(entries, expr))
    ensures expr in entries ==> Parse(expr) == Ok(entries[expr]) && Remembered(entries, expr) == entries
  {
    hide Parse;
    if expr in entries { assert entries[expr := entries[expr]] == entries; }
  }

  class CronCache {
    var entries: map<string, CronSpec>

    ghost predicate Valid()
      reads this
    {
      FreshlyParsed(entries)
    }

    constructor ()
      ensures Valid() && entries == map[]
    {
      entries := map[];
    }

    method NextCronCached(expr: string, now: int) returns (r: Result<int, CronError>)
      requires Valid()
      modifies this
      ensures Valid()
      ensures r == NextAfter(expr, now)
      ensures entries == Remembered(old(entries), expr)
    {
      NextAfterOfSpec(expr, now);
      RememberedIsFresh(entries, expr);
      hide FreshlyParsed, Parse, NextAfter, NextAfterSpec;
      if expr in entries {
        r := ComputeNextAfterSpec(entries[expr], now);
        return;
      }
      var spec := ParseExpression(expr);
      if spec.Err? { return Err(spec.error); }
      entries := entries[expr := spec.value];
      r := ComputeNextAfterSpec(spec.value, now);
    }
  }

  class Scheduler {
    const store: InMemoryJobStore
    const cache: CronCache
    const worker: WorkerId
    const leaseTtl: nat
    var lastReap: int

    ghost predicate Valid()
      reads this, cache
    {
      cache.Valid()
    }

    constructor (store: InMemoryJobStore, worker: WorkerId, leaseTtl: nat, started: int)
      ensures Valid() && fresh(cache) && cache.entries == map[]
      ensures this.store == store && this.worker == worker && this.leaseTtl == leaseTtl && lastReap == started
    {
      this.store, this.worker, this.leaseTtl, lastReap := store, worker, leaseTtl, started;
      cache := new CronCache();
    }

    /** Half the lease, but never less than a second. */
    function ReaperInterval(): (interval: int)
      ensures interval >= 1_000_000_000 && 2 * interval >= leaseTtl - 1
      ensures interval == 1_000_000_000 || 2 * interval <= leaseTtl
    {
      if leaseTtl / 2 >= NS_PER_SECOND then leaseTtl / 2 else NS_PER_SECOND
    }

    /** A bad expression stores nothing. */
    method Schedule(id: JobId, kind: string, schedule: Schedule, name: Option<string>, now: int)
      returns (r: Result<JobId, CronError>)
      requires Valid()
      modifies store, cache
      ensures Valid()
      ensures var first := match schedule
                case Once(at) => Ok(at)
                case Recurring(expr) =>
                  (match NextAfter(expr, now) case Ok(minute) => Ok(minute * 60_000_000_000) case Err(e) => Err(e));
        if first.Err? then r == Err(first.error) && store.jobs == old(store.jobs)
        else r == Ok(id) && store.jobs ==
             old(store.jobs) + [Row(Job(id, kind, schedule, name, first.value, None, now), None, None, 0)]
    {
      var next: int;
      match schedule {
        case Once(at) => next := at;
        case Recurring(expr) =>
          var minute := cache.NextCronCached(expr, now);
          if minute.Err? { return Err(minute.error); }
          next := minute.value * NS_PER_MINUTE;
      }
      store.Insert(Job(id, kind, schedule, name, next, None, now));
      return Ok(id);
    }

    /** One turn of the loop: a sweep if one is due, then a claim. No sweep is ever a whole interval late. */
    method Poll(elapsed: int, reapNow: int, claimNow: int) returns (claimed: seq<Job>)
      modifies this`lastReap, store
      ensures var reap := elapsed - old(lastReap) >= ReaperInterval();
        var granted := if leaseTtl <= 0x7FFF_FFFF_FFFF_FFFF * 1_000_000 then leaseTtl else 60_000_000_000;
        var swept := if reap then RequeueScan(old(store.jobs), reapNow, granted) else old(store.jobs);
        && store.jobs == ClaimScan(swept, worker, claimNow, 16)
        && claimed == ClaimedJobs(swept, claimNow, 16)
        && ClaimsFirstDue(swept, store.jobs, claimed, worker, claimNow, 16)
        && lastReap == (if reap then elapsed else old(lastReap))
      ensures elapsed - lastReap < ReaperInterval()
    {
      if elapsed - lastReap >= ReaperInterval() {
        lastReap := elapsed;
        var _ := store.RequeueStale(reapNow, leaseTtl);
      }
      claimed := store.ClaimDue(worker, claimNow, CLAIM_BATCH);
    }

    /** After the runner: the next time is computed at `readAt`, and the completion is stored at `finished`. */
    method FinishJob(decodes: string -> bool, job: Job, readAt: int, finished: int)
      requires Valid()
      modifies store, cache
      ensures Valid()
      ensures store.jobs == CompleteScan(old(store.jobs), job.id, finished,
        if Continues(decodes, job, readAt) then Some(NextAfter(job.schedule.expr, readAt).value * 60_000_000_000)
        else None)
    {
      var next: Option<int> := None;
      if decodes(job.kind) {
        match job.schedule {
          case Once(_) =>
          case Recurring(expr) =>
            var minute := cache.NextCronCached(expr, readAt);
            if minute.Ok? { next := Some(minute.value * NS_PER_MINUTE); }
        }
      }
      store.Complete(job.id, finished, next);
    }
  }
}
