/**
 The job lease protocol as the SQL statements state it: a claim may take any due, unclaimed
 rows up to its limit, a sweep may release any rows whose lease is over-age, and a completion
 addresses its row by job id alone. Workers, sweeps and inserts interleave freely.
 */
module Lease {
  import opened Prelude

  type JobId = nat
  type WorkerId = nat

  datatype Schedule = Once(at: int) | Recurring(expr: string)

  datatype Job = Job(
    id: JobId, kind: string, schedule: Schedule, name: Option<string>,
    nextRunAt: int, lastRunAt: Option<int>, createdAt: int)

  datatype Row = Row(job: Job, claimedAt: Option<int>, workerId: Option<WorkerId>, attempts: nat)

  type Table = map<JobId, Row>

  predicate Due(row: Row, now: int) {
    row.job.nextRunAt <= now && row.claimedAt.None?
  }

  predicate OverAge(row: Row, now: int, lease: int) {
    row.claimedAt.Some? && row.claimedAt.value < now - lease
  }

  function ClaimedRow(row: Row, worker: WorkerId, now: int, defer: int): Row {
    Row(row.job.(nextRunAt := now + defer), Some(now), Some(worker), row.attempts + 1)
  }

  function CompletedRow(row: Row, finished: int, next: int): Row {
    row.(job := row.job.(lastRunAt := Some(finished), nextRunAt := next), claimedAt := None, workerId := None)
  }

  function RequeuedRow(row: Row, now: int): Row {
    row.(job := row.job.(nextRunAt := now), claimedAt := None, workerId := None)
  }

  function ClaimRows(t: Table, ids: set<JobId>, worker: WorkerId, now: int, defer: int): Table {
    map id | id in t :: if id in ids then ClaimedRow(t[id], worker, now, defer) else t[id]
  }

  function CompleteRow(t: Table, id: JobId, finished: int, next: Option<int>): Table {
    if id !in t then t
    else match next
      case None => t - {id}
      case Some(at) => t[id := CompletedRow(t[id], finished, at)]
  }

  function RequeueRows(t: Table, ids: set<JobId>, now: int): Table {
    map id | id in t :: if id in ids then RequeuedRow(t[id], now) else t[id]
  }

  // ----- runs -----

  /** One worker's unfinished obligation; `serial` tells repeated claims of a job apart. */
  datatype Claim = Claim(id: JobId, worker: WorkerId, stamp: int, serial: nat)

  datatype Event =
    | Inserted(id: JobId, at: int)
    | Claimed(ids: set<JobId>)
    | Completed(id: JobId, next: Option<int>)
    | Requeued(ids: set<JobId>, at: int)

  /** `claims` and `log` record the history; no operation reads the log. */
  datatype State = State(clock: int, table: Table, claims: set<Claim>, serial: nat, log: seq<Event>)

  /** How far a claim pushes the next run away, and the lease that a sweep grants. */
  datatype Config = Config(defer: int, lease: nat)

  datatype Action =
    | Tick(elapsed: nat)
    | Insert(job: Job)
    | ClaimDue(worker: WorkerId, now: int, max: nat, ids: set<JobId>)
    | Complete(claim: Claim, finished: int, next: Option<int>)
    | RequeueStale(now: int, ids: set<JobId>)
    | Die(claim: Claim)

  const INIT := State(0, map[], {}, 0, [])

  /** `now` was read from the clock at some earlier moment. */
  predicate Enabled(cfg: Config, s: State, a: Action) {
    match a
    case Tick(_) => true
    case Insert(job) => job.id !in s.table
    case ClaimDue(_, now, max, ids) =>
      now <= s.clock && |ids| <= max && forall id <- ids :: id in s.table && Due(s.table[id], now)
    case Complete(claim, _, _) => claim in s.claims
    case RequeueStale(now, ids) =>
      now <= s.clock && forall id <- ids :: id in s.table && OverAge(s.table[id], now, cfg.lease)
    case Die(claim) => claim in s.claims
  }

  function Apply(cfg: Config, s: State, a: Action): State {
    if !Enabled(cfg, s, a) then s else
    match a
    case Tick(elapsed) => s.(clock := s.clock + elapsed)
    case Insert(job) =>
      s.(table := s.table[job.id := Row(job, None, None, 0)], log := s.log + [Inserted(job.id, job.nextRunAt)])
    case ClaimDue(worker, now, _, ids) =>
      s.(table := ClaimRows(s.table, ids, worker, now, cfg.defer),
         claims := s.claims + (set id | id in ids :: Claim(id, worker, now, s.serial)),
         serial := s.serial + 1,
         log := s.log + [Claimed(ids)])
    case Complete(claim, finished, next) =>
      s.(table := CompleteRow(s.table, claim.id, finished, next),
         claims := s.claims - {claim},
         log := s.log + [Completed(claim.id, next)])
    case RequeueStale(now, ids) =>
      s.(table := RequeueRows(s.table, ids, now), log := s.log + [Requeued(ids, now)])
    case Die(claim) => s.(claims := s.claims - {claim})
  }

  function Run(cfg: Config, actions: seq<Action>): State {
    if actions == [] then INIT
    else Apply(cfg, Run(cfg, actions[..|actions| - 1]), actions[|actions| - 1])
  }

  lemma {:induction false} RunSnoc(cfg: Config, actions: seq<Action>, a: Action)
    ensures Run(cfg, actions + [a]) == Apply(cfg, Run(cfg, actions), a)
  {
    assert (actions + [a])[..|actions|] == actions;
  }

  // ----- exclusion -----

  /** Nobody has held a claim of this job longer than the lease. */
  ghost predicate InTime(cfg: Config, s: State, id: JobId) {
    forall c <- s.claims :: c.id == id ==> s.clock <= c.stamp + cfg.lease
  }

  /** At most one claimant holds the job. */
  ghost predicate Exclusive(s: State, id: JobId) {
    forall c, d | c in s.claims && d in s.claims && c.id == id && d.id == id :: c == d
  }

  /** The row of the claimed job names this claimant. */
  predicate Named(s: State, c: Claim) {
    c.id in s.table && s.table[c.id].claimedAt == Some(c.stamp) && s.table[c.id].workerId == Some(c.worker)
  }

  ghost predicate RowNamesClaimant(s: State, id: JobId) {
    forall c <- s.claims :: c.id == id ==> Named(s, c)
  }

  lemma {:induction false} ApplyKeepsExclusion(cfg: Config, s: State, a: Action, id: JobId)
    requires Exclusive(s, id) && RowNamesClaimant(s, id) && InTime(cfg, s, id)
    ensures Exclusive(Apply(cfg, s, a), id) && RowNamesClaimant(Apply(cfg, s, a), id)
  {
    var s' := Apply(cfg, s, a);
    if Enabled(cfg, s, a) && a.RequeueStale? {
      forall c <- s'.claims | c.id == id ensures id !in a.ids {
        assert !OverAge(s.table[c.id], a.now, cfg.lease);
      }
    }
  }

  /**
   If the claimants of a job finish or die within its lease, at every moment before now, the job
   has at most one claimant and its row names it, whatever happens to other jobs.
   */
  lemma {:induction false} LeaseExclusion(cfg: Config, actions: seq<Action>, id: JobId)
    requires forall n | 0 <= n < |actions| :: InTime(cfg, Run(cfg, actions[..n]), id)
    ensures Exclusive(Run(cfg, actions), id) && RowNamesClaimant(Run(cfg, actions), id)
  {
    if actions == [] {
    } else {
      var n := |actions| - 1;
      forall k | 0 <= k < n ensures InTime(cfg, Run(cfg, actions[..n][..k]), id) {
        assert actions[..n][..k] == actions[..k];
      }
      LeaseExclusion(cfg, actions[..n], id);
      assert InTime(cfg, Run(cfg, actions[..n]), id);
      ApplyKeepsExclusion(cfg, Run(cfg, actions[..n]), actions[n], id);
      hide InTime, Exclusive, RowNamesClaimant, Apply;
    }
  }

  /** A run that passes through the listed states. */
  lemma {:induction false} RunThrough(cfg: Config, states: seq<State>, actions: seq<Action>)
    requires |states| == |actions| + 1 && states[0] == INIT
    requires forall i | 0 <= i < |actions| :: states[i + 1] == Apply(cfg, states[i], actions[i])
    ensures Run(cfg, actions) == states[|actions|]
  {
    if actions == [] {
    } else {
      var n := |actions| - 1;
      RunThrough(cfg, states[..n + 1], actions[..n]);
      assert states[n + 1] == Apply(cfg, states[n], actions[n]);
    }
  }

  const LATE_ROW := Row(Job(7, "kind", Once(0), None, 0, None, 0), None, None, 0)

  function Inserted7(): State { State(0, map[7 := LATE_ROW], {}, 0, [Inserted(7, 0)]) }

  function Claimed7(cfg: Config, now: int): State {
    State(now, map[7 := ClaimedRow(LATE_ROW, 1, 0, cfg.defer)], {Claim(7, 1, 0, 0)}, 1,
          Inserted7().log + [Claimed({7})])
  }

  lemma {:induction false} ClaimOne(cfg: Config, s: State, row: Row, worker: WorkerId, now: int)
    requires s.table == map[7 := row] && Due(row, now) && now <= s.clock
    ensures Apply(cfg, s, ClaimDue(worker, now, 1, {7})) ==
      State(s.clock, map[7 := ClaimedRow(row, worker, now, cfg.defer)], s.claims + {Claim(7, worker, now, s.serial)},
            s.serial + 1, s.log + [Claimed({7})])
  {
    assert (set id | id in {7} :: Claim(id, worker, now, s.serial)) == {Claim(7, worker, now, s.serial)};
    assert ClaimRows(s.table, {7}, worker, now, cfg.defer) == map[7 := ClaimedRow(row, worker, now, cfg.defer)];
  }

  // ----- what the log says, with no timing assumption -----

  predicate Releases(e: Event, id: JobId) {
    match e
    case Completed(done, _) => done == id
    case Requeued(ids, _) => id in ids
    case _ => false
  }

  predicate Inserts(e: Event, id: JobId) {
    e.Inserted? && e.id == id
  }

  /** A completion that removes the job. */
  predicate Ends(e: Event, id: JobId) {
    e.Completed? && e.id == id && e.next.None?
  }

  predicate Claims(e: Event, id: JobId) {
    e.Claimed? && id in e.ids
  }

  /** The latest claim of the job has not been released. */
  predicate Leased(log: seq<Event>, id: JobId) {
    log != [] &&
    var e := log[|log| - 1];
    Claims(e, id) || (!Releases(e, id) && Leased(log[..|log| - 1], id))
  }

  /** The job was inserted and no completion since then was its last. */
  predicate Stored(log: seq<Event>, id: JobId) {
    log != [] &&
    var e := log[|log| - 1];
    Inserts(e, id) || (!Ends(e, id) && Stored(log[..|log| - 1], id))
  }

  ghost predicate LogInv(s: State) {
    && (forall id :: Stored(s.log, id) <==> id in s.table)
    && (forall id :: Leased(s.log, id) <==> id in s.table && s.table[id].claimedAt.Some?)
    && forall j, id | 0 <= j < |s.log| && Claims(s.log[j], id) :: !Leased(s.log[..j], id)
  }

  lemma {:induction false} ApplyKeepsLog(cfg: Config, s: State, a: Action)
    requires LogInv(s)
    ensures LogInv(Apply(cfg, s, a))
  {
    var s' := Apply(cfg, s, a);
    if s'.log != s.log {
      var n := |s.log|;
      assert s'.log[..n] == s.log;
      forall j, id | 0 <= j < |s'.log| && Claims(s'.log[j], id) ensures !Leased(s'.log[..j], id) {
        if j < n { assert s'.log[..j] == s.log[..j] && s'.log[j] == s.log[j]; }
      }
    }
  }

  lemma {:induction false} RunLog(cfg: Config, actions: seq<Action>)
    ensures LogInv(Run(cfg, actions))
  {
    if actions == [] {
    } else {
      RunLog(cfg, actions[..|actions| - 1]);
      ApplyKeepsLog(cfg, Run(cfg, actions[..|actions| - 1]), actions[|actions| - 1]);
    }
  }

  lemma {:induction false} LeasedUntilReleased(log: seq<Event>, i: nat, id: JobId)
    requires i < |log| && Claims(log[i], id)
    requires forall k | i < k < |log| :: !Releases(log[k], id)
    ensures Leased(log, id)
  {
    if i < |log| - 1 { LeasedUntilReleased(log[..|log| - 1], i, id); }
  }

  /** Two claims of one job are separated by a completion or a requeue of it. */
  lemma {:induction false} ClaimsAreSeparated(cfg: Config, actions: seq<Action>, i: nat, j: nat, id: JobId)
    requires i < j < |Run(cfg, actions).log|
    requires Claims(Run(cfg, actions).log[i], id) && Claims(Run(cfg, actions).log[j], id)
    ensures exists k :: i < k < j && Releases(Run(cfg, actions).log[k], id)
  {
    RunLog(cfg, actions);
    var log := Run(cfg, actions).log;
    if forall k | i < k < j :: !Releases(log[k], id) {
      assert log[..j][i] == log[i];
      LeasedUntilReleased(log[..j], i, id);
      assert false;
    }
  }

  lemma {:induction false} StoredMeansInserted(log: seq<Event>, id: JobId)
    ensures Stored(log, id) <==>
      exists i :: 0 <= i < |log| && Inserts(log[i], id) && forall k | i < k < |log| :: !Ends(log[k], id)
  {
    if log == [] {
    } else {
      var n := |log| - 1;
      StoredMeansInserted(log[..n], id);
      if i :| 0 <= i < |log| && Inserts(log[i], id) && forall k | i < k < |log| :: !Ends(log[k], id) {
        if i < n { assert log[..n][i] == log[i]; }
      }
      if Stored(log[..n], id) && !Ends(log[n], id) {
        var i :| 0 <= i < n && Inserts(log[..n][i], id) && forall k | i < k < n :: !Ends(log[..n][k], id);
        assert Inserts(log[i], id) && forall k | i < k < n :: log[k] == log[..n][k];
      }
    }
  }

  /** A job is in the table exactly while it has been inserted and not completed for the last time. */
  lemma {:induction false} StoredUntilFinalCompletion(cfg: Config, actions: seq<Action>, id: JobId)
    ensures var s := Run(cfg, actions);
      id in s.table <==>
      exists i :: 0 <= i < |s.log| && Inserts(s.log[i], id) && forall k | i < k < |s.log| :: !Ends(s.log[k], id)
  {
    RunLog(cfg, actions);
    StoredMeansInserted(Run(cfg, actions).log, id);
  }

  // ----- what the rows say -----

  /** How often the job has been claimed since it was inserted. */
  function ClaimCount(log: seq<Event>, id: JobId): nat {
    if log == [] then 0
    else
      var e := log[|log| - 1];
      if Inserts(e, id) then 0
      else ClaimCount(log[..|log| - 1], id) + if Claims(e, id) then 1 else 0
  }

  /** The time that the latest insertion, completion or requeue of the job set. */
  function DueFrom(log: seq<Event>, id: JobId): int {
    if log == [] then 0
    else
      match log[|log| - 1]
      case Inserted(job, at) => if job == id then at else DueFrom(log[..|log| - 1], id)
      case Completed(job, Some(at)) => if job == id then at else DueFrom(log[..|log| - 1], id)
      case Requeued(ids, at) => if id in ids then at else DueFrom(log[..|log| - 1], id)
      case _ => DueFrom(log[..|log| - 1], id)
  }

  ghost predicate RowInv(s: State) {
    forall id <- s.table ::
      && s.table[id].attempts == ClaimCount(s.log, id)
      && (s.table[id].workerId.Some? <==> s.table[id].claimedAt.Some?)
      && s.table[id].job.id == id
      && (s.table[id].claimedAt.None? ==> s.table[id].job.nextRunAt == DueFrom(s.log, id))
  }

  lemma {:induction false} ApplyKeepsRows(cfg: Config, s: State, a: Action)
    requires RowInv(s)
    ensures RowInv(Apply(cfg, s, a))
  {
    var s' := Apply(cfg, s, a);
    if s'.log != s.log {
      assert s'.log[..|s.log|] == s.log;
    }
  }

  /**
   In every run a row counts the claims of its job, names a worker exactly while claimed, and keeps the
   time last set.
   */
  lemma {:induction false} RowsFollowLog(cfg: Config, actions: seq<Action>)
    ensures RowInv(Run(cfg, actions))
  {
    if actions == [] {
    } else {
      RowsFollowLog(cfg, actions[..|actions| - 1]);
      ApplyKeepsRows(cfg, Run(cfg, actions[..|actions| - 1]), actions[|actions| - 1]);
      hide RowInv, Apply;
    }
  }

  /**
   In every run a job can be claimed at `now` exactly when it is stored, released, and was last set to
   run by then.
   */
  lemma {:induction false} ClaimableExactlyWhen(cfg: Config, actions: seq<Action>, id: JobId, now: int)
    ensures var s := Run(cfg, actions);
      (id in s.table && Due(s.table[id], now)) <==>
        Stored(s.log, id) && !Leased(s.log, id) && DueFrom(s.log, id) <= now
  {
    RunLog(cfg, actions);
    RowsFollowLog(cfg, actions);
    hide Run, Stored, Leased, DueFrom;
  }

  // ----- overrunning a lease -----

  /** Claims made so far carry smaller serials than the next one will. */
  ghost predicate SerialsPast(s: State) {
    forall c <- s.claims :: c.serial < s.serial
  }

  lemma {:induction false} RunSerials(cfg: Config, actions: seq<Action>)
    ensures SerialsPast(Run(cfg, actions))
  {
    if actions == [] {
    } else {
      RunSerials(cfg, actions[..|actions| - 1]);
    }
  }

  /** A sweep and a claim of one job by another worker, at one reading. */
  function TakeOver(cfg: Config, s: State, id: JobId, worker: WorkerId, now: int): State {
    Apply(cfg, Apply(cfg, s, RequeueStale(now, {id})), ClaimDue(worker, now, 1, {id}))
  }

  lemma {:induction false} WithinLeaseNoTakeOver(cfg: Config, s: State, c: Claim, worker: WorkerId, now: int)
    requires Named(s, c) && c in s.claims && s.clock <= c.stamp + cfg.lease
    ensures TakeOver(cfg, s, c.id, worker, now) == s
  {
    assert now <= s.clock ==> !OverAge(s.table[c.id], now, cfg.lease);
    assert c.id in {c.id};
    assert !Enabled(cfg, s, RequeueStale(now, {c.id}));
    assert !Due(s.table[c.id], now);
    assert !Enabled(cfg, s, ClaimDue(worker, now, 1, {c.id}));
  }

  lemma {:induction false} ExpiredTakeOver(cfg: Config, s: State, c: Claim, worker: WorkerId)
    requires Named(s, c) && SerialsPast(s) && c in s.claims && s.clock > c.stamp + cfg.lease
    ensures !Exclusive(TakeOver(cfg, s, c.id, worker, s.clock), c.id)
  {
    var now := s.clock;
    assert OverAge(s.table[c.id], now, cfg.lease);
    assert Enabled(cfg, s, RequeueStale(now, {c.id}));
    var s1 := Apply(cfg, s, RequeueStale(now, {c.id}));
    assert s1.table[c.id] == RequeuedRow(s.table[c.id], now);
    assert Enabled(cfg, s1, ClaimDue(worker, now, 1, {c.id}));
    var s2 := Apply(cfg, s1, ClaimDue(worker, now, 1, {c.id}));
    var d := Claim(c.id, worker, now, s.serial);
    assert c in s2.claims && d in s2.claims && c != d;
  }

  /** A sweep and a claim can give a held job a second claimant if and only if its claim has outlived the lease. */
  lemma {:induction false} SharedIffOverrun(cfg: Config, s: State, c: Claim, worker: WorkerId)
    requires Exclusive(s, c.id) && RowNamesClaimant(s, c.id) && SerialsPast(s) && c in s.claims
    ensures (exists now :: !Exclusive(TakeOver(cfg, s, c.id, worker, now), c.id)) <==> s.clock > c.stamp + cfg.lease
  {
    if s.clock > c.stamp + cfg.lease {
      ExpiredTakeOver(cfg, s, c, worker);
    } else {
      forall now ensures Exclusive(TakeOver(cfg, s, c.id, worker, now), c.id) {
        WithinLeaseNoTakeOver(cfg, s, c, worker, now);
      }
    }
    hide TakeOver;
  }

  /**
   So it is in every run whose claimants of the job were in time so far: the first overrun is what lets
   a second in.
   */
  lemma {:induction false} FirstOverrunShares(cfg: Config, actions: seq<Action>, c: Claim, worker: WorkerId)
    requires forall n | 0 <= n < |actions| :: InTime(cfg, Run(cfg, actions[..n]), c.id)
    requires c in Run(cfg, actions).claims
    ensures var s := Run(cfg, actions);
      (exists now :: !Exclusive(TakeOver(cfg, s, c.id, worker, now), c.id)) <==> s.clock > c.stamp + cfg.lease
  {
    LeaseExclusion(cfg, actions, c.id);
    RunSerials(cfg, actions);
    hide *;
    SharedIffOverrun(cfg, Run(cfg, actions), c, worker);
  }

  /**
   A completion addresses its row by job id alone: it leaves the rows of all remaining claimants
   naming them if and only if nobody else holds the completed job.
   */
  lemma {:induction false} CompletionIsWorkerBlind(cfg: Config, s: State, c: Claim, finished: int, next: Option<int>)
    requires c in s.claims && forall d <- s.claims :: d != c ==> Named(s, d)
    ensures var s' := Apply(cfg, s, Complete(c, finished, next));
      && s'.claims == s.claims - {c}
      && ((forall d <- s'.claims :: Named(s', d)) <==> forall d <- s.claims :: d.id == c.id ==> d == c)
      && (forall d <- s'.claims :: d.id == c.id ==>
            if next.None? then c.id !in s'.table else c.id in s'.table && s'.table[c.id].claimedAt.None?)
  {
    var s' := Apply(cfg, s, Complete(c, finished, next));
    forall d <- s'.claims ensures Named(s', d) <==> d.id != c.id {
      assert Named(s, d);
    }
  }

  /**
   The timing assumption is needed for every lease: a worker that overruns it shares its job with the
   next claimant.
   */
  lemma {:induction false} OverrunSharesJob(cfg: Config)
    ensures exists actions: seq<Action>, id: JobId :: !Exclusive(Run(cfg, actions), id)
  {
    var late := cfg.lease + 1;
    var held := Claimed7(cfg, late);
    var actions := [Insert(LATE_ROW.job), ClaimDue(1, 0, 1, {7}), Tick(late)];
    ClaimOne(cfg, Inserted7(), LATE_ROW, 1, 0);
    assert Apply(cfg, INIT, Insert(LATE_ROW.job)) == Inserted7();
    assert Apply(cfg, Claimed7(cfg, 0), Tick(late)) == held;
    ExpiredTakeOver(cfg, held, Claim(7, 1, 0, 0), 2);
    hide Apply, Exclusive;
    RunThrough(cfg, [INIT, Inserted7(), Claimed7(cfg, 0), held], actions);
    RunSnoc(cfg, actions, RequeueStale(late, {7}));
    RunSnoc(cfg, actions + [RequeueStale(late, {7})], ClaimDue(2, late, 1, {7}));
  }
}
