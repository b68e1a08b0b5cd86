/**
 The in-memory job store: a vector walked in place by each operation, and the proof that
 every operation on it is one step of the lease protocol.
 */
module InMemoryStore {
  import opened Prelude
  import opened Lease

  const YEAR_NS: int := 365 * 86_400_000_000_000
  const MAX_LEASE_NS: int := 0x7FFF_FFFF_FFFF_FFFF * 1_000_000
  const FALLBACK_LEASE_NS: int := 60_000_000_000

  // ----- each operation as a function of the vector -----

  /** The jobs a claim returns, as they were before it. */
  function ClaimedJobs(rows: seq<Row>, now: int, max: nat): (jobs: seq<Job>)
    ensures |jobs| <= max
  {
    if rows == [] || max == 0 then []
    else if Due(rows[0], now) then [rows[0].job] + ClaimedJobs(rows[1..], now, max - 1)
    else ClaimedJobs(rows[1..], now, max)
  }

  /** The vector after a claim. */
  function ClaimScan(rows: seq<Row>, worker: WorkerId, now: int, max: nat): (r: seq<Row>)
    ensures |r| == |rows|
  {
    if rows == [] || max == 0 then rows
    else if Due(rows[0], now) then
      [ClaimedRow(rows[0], worker, now, YEAR_NS)] + ClaimScan(rows[1..], worker, now, max - 1)
    else [rows[0]] + ClaimScan(rows[1..], worker, now, max)
  }

  /** Both scans, one row further. */
  lemma {:induction false} ClaimHead(done: seq<Row>, taken: seq<Job>, row: Row, rest: seq<Row>,
                                     worker: WorkerId, now: int, max: nat)
    requires max > 0
    ensures Due(row, now) ==>
      && done + ClaimScan([row] + rest, worker, now, max) ==
         done + [ClaimedRow(row, worker, now, YEAR_NS)] + ClaimScan(rest, worker, now, max - 1)
      && taken + ClaimedJobs([row] + rest, now, max) == taken + [row.job] + ClaimedJobs(rest, now, max - 1)
    ensures !Due(row, now) ==>
      && done + ClaimScan([row] + rest, worker, now, max) == done + [row] + ClaimScan(rest, worker, now, max)
      && taken + ClaimedJobs([row] + rest, now, max) == taken + ClaimedJobs(rest, now, max)
  {
    assert ([row] + rest)[1..] == rest;
  }

  lemma {:induction false} OneMoreRow(rows: seq<Row>, i: nat, row: Row)
    requires i < |rows|
    ensures rows[i..] == [rows[i]] + rows[i + 1..]
    ensures rows[i := row][..i + 1] == rows[..i] + [row] && rows[i := row][i + 1..] == rows[i + 1..]
    ensures rows[..i + 1] == rows[..i] + [rows[i]]
  {
  }

  lemma {:induction false} ClaimNothing(rows: seq<Row>, worker: WorkerId, now: int, max: nat)
    requires rows == [] || max == 0
    ensures ClaimScan(rows, worker, now, max) == rows && ClaimedJobs(rows, now, max) == []
  {
  }

  function CompleteFirst(rows: seq<Row>, id: JobId, finished: int, next: int): seq<Row> {
    if rows == [] then []
    else if rows[0].job.id == id then [CompletedRow(rows[0], finished, next)] + rows[1..]
    else [rows[0]] + CompleteFirst(rows[1..], id, finished, next)
  }

  function Retain(rows: seq<Row>, id: JobId): seq<Row> {
    if rows == [] then []
    else if rows[0].job.id == id then Retain(rows[1..], id)
    else [rows[0]] + Retain(rows[1..], id)
  }

  function CompleteScan(rows: seq<Row>, id: JobId, finished: int, next: Option<int>): seq<Row> {
    match next
    case None => Retain(rows, id)
    case Some(at) => CompleteFirst(rows, id, finished, at)
  }

  lemma {:induction false} CompleteHead(done: seq<Row>, row: Row, rest: seq<Row>, id: JobId, finished: int, next: int)
    ensures done + CompleteFirst([row] + rest, id, finished, next) ==
      if row.job.id == id then done + [CompletedRow(row, finished, next)] + rest
      else done + [row] + CompleteFirst(rest, id, finished, next)
  {
    assert ([row] + rest)[1..] == rest;
  }

  lemma {:induction false} RetainHead(kept: seq<Row>, row: Row, rest: seq<Row>, id: JobId)
    ensures kept + Retain([row] + rest, id) == (if row.job.id == id then kept else kept + [row]) + Retain(rest, id)
  {
    assert ([row] + rest)[1..] == rest;
  }

  lemma {:induction false} NothingToComplete(id: JobId, finished: int, next: int)
    ensures CompleteFirst([], id, finished, next) == [] && Retain([], id) == []
  {
  }

  function RequeueOne(row: Row, now: int, lease: int): Row {
    if OverAge(row, now, lease) then RequeuedRow(row, now) else row
  }

  function RequeueScan(rows: seq<Row>, now: int, lease: int): (r: seq<Row>)
    ensures |r| == |rows|
  {
    if rows == [] then [] else [RequeueOne(rows[0], now, lease)] + RequeueScan(rows[1..], now, lease)
  }

  function CountOverAge(rows: seq<Row>, now: int, lease: int): nat {
    if rows == [] then 0
    else (if OverAge(rows[0], now, lease) then 1 else 0) + CountOverAge(rows[1..], now, lease)
  }

  lemma {:induction false} RequeueHead(done: seq<Row>, row: Row, rest: seq<Row>, now: int, lease: int)
    ensures done + RequeueScan([row] + rest, now, lease) ==
      done + [if OverAge(row, now, lease) then RequeuedRow(row, now) else row] + RequeueScan(rest, now, lease)
    ensures CountOverAge([row] + rest, now, lease) ==
      (if OverAge(row, now, lease) then 1 else 0) + CountOverAge(rest, now, lease)
  {
    assert ([row] + rest)[1..] == rest;
  }

  // ----- what the scans do to each row -----

  function DueAt(now: int): Row -> bool {
    (r: Row) => r.claimedAt.None? && r.job.nextRunAt <= now
  }

  function ClaimedBefore(cutoff: int): Row -> bool {
    (r: Row) => r.claimedAt.Some? && r.claimedAt.value < cutoff
  }

  /** The row is due and fewer than `max` rows before it are. */
  ghost predicate AmongFirstDue(rows: seq<Row>, i: nat, now: int, max: nat)
    requires i < |rows|
  {
    DueAt(now)(rows[i]) && Count(rows[..i], DueAt(now)) < max
  }

  /** What a claim does at position `i`. */
  ghost predicate ClaimedAtRow(rows: seq<Row>, i: nat, row': Row, jobs: seq<Job>, worker: WorkerId, now: int, max: nat)
    requires i < |rows|
  {
    if AmongFirstDue(rows, i, now, max) then
      && Count(rows[..i], DueAt(now)) < |jobs| && jobs[Count(rows[..i], DueAt(now))] == rows[i].job
      && row' == rows[i].(job := rows[i].job.(nextRunAt := now + 365 * 86_400_000_000_000),
                          claimedAt := Some(now), workerId := Some(worker), attempts := rows[i].attempts + 1)
    else row' == rows[i]
  }

  /**
   The first `max` due rows are stamped with the claim and pushed a year away, the others are left alone;
   the jobs of those rows are returned, in order and as they were.
   */
  ghost predicate ClaimsFirstDue(rows: seq<Row>, rows': seq<Row>, jobs: seq<Job>, worker: WorkerId, now: int,
                                 max: nat)
  {
    && |rows'| == |rows|
    && |jobs| == (if Count(rows, DueAt(now)) < max then Count(rows, DueAt(now)) else max)
    && forall i | 0 <= i < |rows| :: ClaimedAtRow(rows, i, rows'[i], jobs, worker, now, max)
  }

  /** Exactly the rows claimed before the cutoff are released and due at once; `count` says how many. */
  ghost predicate ReleasesClaimedBefore(rows: seq<Row>, rows': seq<Row>, count: nat, cutoff: int, now: int) {
    && |rows'| == |rows| && count == Count(rows, ClaimedBefore(cutoff))
    && forall i | 0 <= i < |rows| :: rows'[i] ==
         if ClaimedBefore(cutoff)(rows[i])
         then rows[i].(job := rows[i].job.(nextRunAt := now), claimedAt := None, workerId := None)
         else rows[i]
  }

  /** What a completion does at position `i`. */
  predicate CompletedAtRow(rows: seq<Row>, i: nat, row': Row, id: JobId, finished: int, next: int)
    requires i < |rows|
  {
    if rows[i].job.id == id && (forall j | 0 <= j < i :: rows[j].job.id != id)
    then row' == rows[i].(job := rows[i].job.(lastRunAt := Some(finished), nextRunAt := next),
                          claimedAt := None, workerId := None)
    else row' == rows[i]
  }

  /** Only the first row of the job changes: it is free again, with the finishing time and the next run. */
  ghost predicate CompletesFirst(rows: seq<Row>, rows': seq<Row>, id: JobId, finished: int, next: int) {
    && |rows'| == |rows|
    && forall i | 0 <= i < |rows| :: CompletedAtRow(rows, i, rows'[i], id, finished, next)
  }

  lemma {:induction false} FirstDueFromSecond(rows: seq<Row>, i: nat, now: int, max: nat)
    requires 0 < i < |rows| && max > 0
    ensures var first := if DueAt(now)(rows[0]) then 1 else 0;
      && Count(rows[..i], DueAt(now)) == Count(rows[1..][..i - 1], DueAt(now)) + first
      && (AmongFirstDue(rows, i, now, max) <==> AmongFirstDue(rows[1..], i - 1, now, max - first))
  {
    CountHead(rows[..i], DueAt(now));
    assert rows[..i][0] == rows[0] && rows[..i][1..] == rows[1..][..i - 1];
  }

  lemma {:induction false} ClaimIsExact(rows: seq<Row>, worker: WorkerId, now: int, max: nat)
    ensures ClaimsFirstDue(rows, ClaimScan(rows, worker, now, max), ClaimedJobs(rows, now, max), worker, now, max)
  {
    var rows', jobs := ClaimScan(rows, worker, now, max), ClaimedJobs(rows, now, max);
    CountHead(rows, DueAt(now));
    if rows == [] || max == 0 {
    } else {
      var rest := rows[1..];
      var max' := if DueAt(now)(rows[0]) then max - 1 else max;
      var rest', jobs' := ClaimScan(rest, worker, now, max'), ClaimedJobs(rest, now, max');
      ClaimIsExact(rest, worker, now, max');
      CountHead(rows[..0], DueAt(now));
      assert rows'[1..] == rest' && jobs == (if DueAt(now)(rows[0]) then [rows[0].job] else []) + jobs';
      assert ClaimedAtRow(rows, 0, rows'[0], jobs, worker, now, max);
      hide ClaimScan, ClaimedJobs, Count;
      forall i | 0 < i < |rows| ensures ClaimedAtRow(rows, i, rows'[i], jobs, worker, now, max) {
        FirstDueFromSecond(rows, i, now, max);
        assert rows'[i] == rest'[i - 1] && ClaimedAtRow(rest, i - 1, rest'[i - 1], jobs', worker, now, max');
      }
    }
  }

  lemma {:induction false} SweepIsExact(rows: seq<Row>, now: int, lease: int)
    ensures ReleasesClaimedBefore(rows, RequeueScan(rows, now, lease), CountOverAge(rows, now, lease), now - lease, now)
  {
    CountHead(rows, ClaimedBefore(now - lease));
    if rows == [] {
    } else {
      SweepIsExact(rows[1..], now, lease);
      hide Count;
    }
  }

  lemma {:induction false} CompletionIsExact(rows: seq<Row>, id: JobId, finished: int, next: int)
    ensures CompletesFirst(rows, CompleteFirst(rows, id, finished, next), id, finished, next)
  {
    if rows == [] {
    } else {
      var rest := rows[1..];
      var rows', rest' := CompleteFirst(rows, id, finished, next), CompleteFirst(rest, id, finished, next);
      CompletionIsExact(rest, id, finished, next);
      assert CompletedAtRow(rows, 0, rows'[0], id, finished, next);
      assert rows'[1..] == if rows[0].job.id == id then rest else rest';
      hide CompleteFirst, CompletedRow;
      forall i | 0 < i < |rows| ensures CompletedAtRow(rows, i, rows'[i], id, finished, next) {
        assert rows'[i] == rows'[1..][i - 1] && rest[i - 1] == rows[i];
        if rows[0].job.id != id {
          assert CompletedAtRow(rest, i - 1, rest'[i - 1], id, finished, next);
          FirstFromSecond(rows, i, id);
        }
      }
    }
  }

  lemma {:induction false} FirstFromSecond(rows: seq<Row>, i: nat, id: JobId)
    requires 0 < i < |rows| && rows[0].job.id != id
    ensures (forall j | 0 <= j < i :: rows[j].job.id != id) <==> forall j | 0 <= j < i - 1 :: rows[1..][j].job.id != id
  {
    assert forall j | 0 < j < i :: rows[j] == rows[1..][j - 1];
  }

  class InMemoryJobStore {
    var jobs: seq<Row>

    constructor ()
      ensures jobs == []
    {
      jobs := [];
    }

    method Insert(job: Job)
      modifies this
      ensures jobs == old(jobs) + [Row(job, None, None, 0)]
      ensures forall cfg :: Performs(cfg, Add(job), old(jobs), jobs)
    {
      jobs := jobs + [Row(job, None, None, 0)];
    }

    method ClaimDue(worker: WorkerId, now: int, max: nat) returns (claimed: seq<Job>)
      modifies this
      ensures jobs == ClaimScan(old(jobs), worker, now, max)
      ensures claimed == ClaimedJobs(old(jobs), now, max)
      ensures ClaimsFirstDue(old(jobs), jobs, claimed, worker, now, max)
      ensures forall cfg :: Performs(cfg, Take(worker, now, max), old(jobs), jobs)
    {
      hide Performs, ClaimScan, ClaimedJobs, ClaimedRow, Due, ClaimsFirstDue;
      ClaimIsExact(jobs, worker, now, max);
      ClaimPerforms(jobs, worker, now, max);
      claimed := [];
      var i := 0;
      while i < |jobs|
        invariant 0 <= i <= |jobs| && |claimed| <= max
        invariant jobs[..i] + ClaimScan(jobs[i..], worker, now, max - |claimed|)
               == ClaimScan(old(jobs), worker, now, max)
        invariant claimed + ClaimedJobs(jobs[i..], now, max - |claimed|) == ClaimedJobs(old(jobs), now, max)
      {
        if |claimed| >= max { break; }
        var j := jobs[i];
        OneMoreRow(jobs, i, ClaimedRow(j, worker, now, YEAR_NS));
        ClaimHead(jobs[..i], claimed, j, jobs[i + 1..], worker, now, max - |claimed|);
        if Due(j, now) {
          claimed := claimed + [j.job];
          jobs := jobs[i := ClaimedRow(j, worker, now, YEAR_NS)];
        }
        i := i + 1;
      }
      ClaimNothing(jobs[i..], worker, now, max - |claimed|);
      assert jobs == jobs[..i] + jobs[i..] && claimed == claimed + [];
    }

    method Complete(id: JobId, finished: int, next: Option<int>)
      modifies this
      ensures jobs == CompleteScan(old(jobs), id, finished, next)
      ensures next.Some? ==> CompletesFirst(old(jobs), jobs, id, finished, next.value)
      ensures forall cfg, claim: Claim | claim.id == id ::
                Performs(cfg, Finish(claim, finished, next), old(jobs), jobs)
    {
      hide Performs, CompletesFirst;
      if next.Some? { CompletionIsExact(jobs, id, finished, next.value); }
      CompletionPerforms(jobs, id, finished, next);
      match next
      case Some(at) => CompleteMatching(id, finished, at);
      case None => RetainOthers(id);
    }

    /** The loop for a job that runs again: only the first match is updated. */
    method CompleteMatching(id: JobId, finished: int, at: int)
      modifies this
      ensures jobs == CompleteFirst(old(jobs), id, finished, at)
    {
      NothingToComplete(id, finished, at);
      hide CompleteFirst, CompletedRow;
      for i := 0 to |jobs|
        invariant jobs == old(jobs)
        invariant jobs[..i] + CompleteFirst(jobs[i..], id, finished, at) == CompleteFirst(jobs, id, finished, at)
      {
        OneMoreRow(jobs, i, CompletedRow(jobs[i], finished, at));
        CompleteHead(jobs[..i], jobs[i], jobs[i + 1..], id, finished, at);
        if jobs[i].job.id == id {
          jobs := jobs[i := CompletedRow(jobs[i], finished, at)];
          return;
        }
      }
      assert jobs == jobs[..|jobs|] + jobs[|jobs|..];
    }

    /** The retain for a job that is over: every match is dropped. */
    method RetainOthers(id: JobId)
      modifies this
      ensures jobs == Retain(old(jobs), id)
    {
      NothingToComplete(id, 0, 0);
      hide Retain;
      var kept: seq<Row> := [];
      for i := 0 to |jobs|
        invariant jobs == old(jobs)
        invariant kept + Retain(jobs[i..], id) == Retain(jobs, id)
      {
        OneMoreRow(jobs, i, jobs[i]);
        RetainHead(kept, jobs[i], jobs[i + 1..], id);
        if jobs[i].job.id != id { kept := kept + [jobs[i]]; }
      }
      jobs := kept;
    }

    method RequeueStale(now: int, ttl: nat) returns (count: nat)
      modifies this
      ensures var granted := if ttl <= 0x7FFF_FFFF_FFFF_FFFF * 1_000_000 then ttl else 60_000_000_000;
        && jobs == RequeueScan(old(jobs), now, granted)
        && ReleasesClaimedBefore(old(jobs), jobs, count, now - granted, now)
        && forall cfg: Config | cfg.lease == granted :: Performs(cfg, Sweep(now), old(jobs), jobs)
    {
      hide Performs, RequeueScan, CountOverAge, RequeuedRow, OverAge, ReleasesClaimedBefore;
      var lease := if ttl <= MAX_LEASE_NS then ttl as int else FALLBACK_LEASE_NS;
      SweepIsExact(jobs, now, lease);
      SweepPerforms(jobs, now, lease);
      count := 0;
      for i := 0 to |jobs|
        invariant |jobs| == |old(jobs)|
        invariant jobs[..i] + RequeueScan(jobs[i..], now, lease) == RequeueScan(old(jobs), now, lease)
        invariant count + CountOverAge(jobs[i..], now, lease) == CountOverAge(old(jobs), now, lease)
      {
        var row := jobs[i];
        OneMoreRow(jobs, i, RequeuedRow(row, now));
        RequeueHead(jobs[..i], row, jobs[i + 1..], now, lease);
        if OverAge(row, now, lease) {
          jobs := jobs[i := RequeuedRow(row, now)];
          count := count + 1;
        }
      }
      NothingToRequeue(now, lease);
    }
  }

  lemma {:induction false} ClaimPerforms(rows: seq<Row>, worker: WorkerId, now: int, max: nat)
    ensures forall cfg :: Performs(cfg, Take(worker, now, max), rows, ClaimScan(rows, worker, now, max))
  {
  }

  lemma {:induction false} CompletionPerforms(rows: seq<Row>, id: JobId, finished: int, next: Option<int>)
    ensures forall cfg, claim: Claim | claim.id == id ::
              Performs(cfg, Finish(claim, finished, next), rows, CompleteScan(rows, id, finished, next))
  {
  }

  lemma {:induction false} SweepPerforms(rows: seq<Row>, now: int, lease: int)
    ensures forall cfg: Config | cfg.lease == lease :: Performs(cfg, Sweep(now), rows, RequeueScan(rows, now, lease))
  {
  }

  lemma {:induction false} NothingToRequeue(now: int, lease: int)
    ensures RequeueScan([], now, lease) == [] && CountOverAge([], now, lease) == 0
  {
  }

  // ----- refinement -----

  function Ids(rows: seq<Row>): set<JobId> {
    if rows == [] then {} else {rows[0].job.id} + Ids(rows[1..])
  }

  ghost predicate UniqueIds(rows: seq<Row>) {
    rows == [] || (rows[0].job.id !in Ids(rows[1..]) && UniqueIds(rows[1..]))
  }

  ghost function TableOf(rows: seq<Row>): (t: Table)
    ensures t.Keys == Ids(rows)
  {
    if rows == [] then map[] else TableOf(rows[1..])[rows[0].job.id := rows[0]]
  }

  lemma {:induction false} TableRow(rows: seq<Row>, id: JobId)
    requires UniqueIds(rows) && id in Ids(rows)
    ensures exists r <- rows :: r.job.id == id && TableOf(rows)[id] == r
  {
    if rows[0].job.id != id {
      TableRow(rows[1..], id);
      var r :| r in rows[1..] && r.job.id == id && TableOf(rows[1..])[id] == r;
      assert r in rows;
    }
  }

  lemma {:induction false} PrependUnique(row: Row, rows: seq<Row>)
    requires UniqueIds(rows) && row.job.id !in Ids(rows)
    ensures UniqueIds([row] + rows) && TableOf([row] + rows) == TableOf(rows)[row.job.id := row]
    ensures Ids([row] + rows) == Ids(rows) + {row.job.id}
  {
    assert ([row] + rows)[1..] == rows;
  }

  function ClaimedIds(jobs: seq<Job>): set<JobId> {
    set j <- jobs :: j.id
  }

  lemma {:induction false} ClaimedIdsFromFirst(job: Job, jobs: seq<Job>)
    ensures ClaimedIds([job] + jobs) == {job.id} + ClaimedIds(jobs)
  {
  }

  lemma {:induction false} ClaimRowsPrepend(t: Table, row: Row, ids: set<JobId>, worker: WorkerId, now: int)
    requires row.job.id !in t && row.job.id !in ids
    ensures ClaimRows(t[row.job.id := row], ids, worker, now, YEAR_NS)
         == ClaimRows(t, ids, worker, now, YEAR_NS)[row.job.id := row]
    ensures ClaimRows(t[row.job.id := row], {row.job.id} + ids, worker, now, YEAR_NS)
         == ClaimRows(t, ids, worker, now, YEAR_NS)[row.job.id := ClaimedRow(row, worker, now, YEAR_NS)]
  {
  }

  /** The claimed jobs belong to distinct due rows. */
  lemma {:induction false} ClaimedJobsAreDue(rows: seq<Row>, now: int, max: nat)
    requires UniqueIds(rows)
    ensures var ids := ClaimedIds(ClaimedJobs(rows, now, max));
      && |ids| == |ClaimedJobs(rows, now, max)| && ids <= Ids(rows)
      && forall id <- ids :: Due(TableOf(rows)[id], now)
  {
    if rows == [] || max == 0 {
      assert ClaimedIds([]) == {};
    } else {
      var due := Due(rows[0], now);
      var max' := if due then max - 1 else max;
      ClaimedJobsAreDue(rows[1..], now, max');
      ClaimedIdsFromFirst(rows[0].job, ClaimedJobs(rows[1..], now, max'));
      hide ClaimedIds;
    }
  }

  /** Unless the limit was reached, the claim leaves no due row behind. */
  lemma {:induction false} ClaimIsGreedy(rows: seq<Row>, worker: WorkerId, now: int, max: nat)
    requires |ClaimedJobs(rows, now, max)| < max
    ensures forall r <- ClaimScan(rows, worker, now, max) :: !Due(r, now)
  {
    if rows == [] {
    } else {
      ClaimIsGreedy(rows[1..], worker, now, if Due(rows[0], now) then max - 1 else max);
    }
  }

  /** A sweep leaves no over-age claim behind. */
  lemma {:induction false} SweepIsComplete(rows: seq<Row>, now: int, lease: int)
    ensures forall r <- RequeueScan(rows, now, lease) :: !OverAge(r, now, lease)
  {
    if rows == [] {
    } else {
      SweepIsComplete(rows[1..], now, lease);
    }
  }

  /** The scan is a claim of exactly those rows. */
  lemma {:induction false} ClaimRefines(rows: seq<Row>, worker: WorkerId, now: int, max: nat)
    requires UniqueIds(rows)
    ensures var rows' := ClaimScan(rows, worker, now, max);
      var ids := ClaimedIds(ClaimedJobs(rows, now, max));
      && UniqueIds(rows') && Ids(rows') == Ids(rows)
      && TableOf(rows') == ClaimRows(TableOf(rows), ids, worker, now, YEAR_NS)
  {
    if rows == [] || max == 0 {
      assert ClaimedIds([]) == {};
      assert ClaimRows(TableOf(rows), {}, worker, now, YEAR_NS) == TableOf(rows);
    } else {
      var first, rest := rows[0], rows[1..];
      var max' := if Due(first, now) then max - 1 else max;
      var ids' := ClaimedIds(ClaimedJobs(rest, now, max'));
      ClaimRefines(rest, worker, now, max');
      ClaimedJobsAreDue(rest, now, max');
      ClaimRowsPrepend(TableOf(rest), first, ids', worker, now);
      PrependUnique(if Due(first, now) then ClaimedRow(first, worker, now, YEAR_NS) else first,
                    ClaimScan(rest, worker, now, max'));
      ClaimedIdsFromFirst(first.job, ClaimedJobs(rest, now, max'));
      hide ClaimedIds, ClaimRows;
    }
  }

  /** What unique ids say about the first row. */
  lemma {:induction false} FirstRow(rows: seq<Row>)
    requires rows != [] && UniqueIds(rows)
    ensures UniqueIds(rows[1..]) && rows[0].job.id !in Ids(rows[1..])
    ensures Ids(rows) == {rows[0].job.id} + Ids(rows[1..])
    ensures TableOf(rows) == TableOf(rows[1..])[rows[0].job.id := rows[0]]
  {
  }

  lemma {:induction false} RetainRefines(rows: seq<Row>, id: JobId)
    requires UniqueIds(rows)
    ensures UniqueIds(Retain(rows, id)) && Ids(Retain(rows, id)) <= Ids(rows)
    ensures TableOf(Retain(rows, id)) == TableOf(rows) - {id}
  {
    if rows == [] {
    } else {
      hide UniqueIds, Ids, TableOf;
      FirstRow(rows);
      RetainRefines(rows[1..], id);
      if rows[0].job.id != id {
        PrependUnique(rows[0], Retain(rows[1..], id));
      }
    }
  }

  lemma {:induction false} CompleteFirstRefines(rows: seq<Row>, id: JobId, finished: int, next: int)
    requires UniqueIds(rows)
    ensures UniqueIds(CompleteFirst(rows, id, finished, next))
    ensures Ids(CompleteFirst(rows, id, finished, next)) == Ids(rows)
    ensures TableOf(CompleteFirst(rows, id, finished, next)) == CompleteRow(TableOf(rows), id, finished, Some(next))
  {
    if rows == [] {
    } else {
      hide UniqueIds, Ids, TableOf;
      FirstRow(rows);
      if rows[0].job.id == id {
        PrependUnique(CompletedRow(rows[0], finished, next), rows[1..]);
      } else {
        CompleteFirstRefines(rows[1..], id, finished, next);
        PrependUnique(rows[0], CompleteFirst(rows[1..], id, finished, next));
      }
    }
  }

  lemma {:induction false} CompleteRefines(rows: seq<Row>, id: JobId, finished: int, next: Option<int>)
    requires UniqueIds(rows)
    ensures var rows' := CompleteScan(rows, id, finished, next);
      UniqueIds(rows') && TableOf(rows') == CompleteRow(TableOf(rows), id, finished, next)
  {
    match next
    case None => RetainRefines(rows, id);
    case Some(at) => CompleteFirstRefines(rows, id, finished, at);
  }

  function OverAgeIds(rows: seq<Row>, now: int, lease: int): set<JobId> {
    set r <- rows | OverAge(r, now, lease) :: r.job.id
  }

  lemma {:induction false} OverAgeIdsFromFirst(rows: seq<Row>, now: int, lease: int)
    requires rows != []
    ensures OverAgeIds(rows, now, lease) ==
      OverAgeIds(rows[1..], now, lease) + if OverAge(rows[0], now, lease) then {rows[0].job.id} else {}
  {
    assert rows == [rows[0]] + rows[1..];
  }

  lemma {:induction false} RequeueRowsPrepend(t: Table, row: Row, ids: set<JobId>, now: int)
    requires row.job.id !in t && row.job.id !in ids
    ensures RequeueRows(t[row.job.id := row], ids, now) == RequeueRows(t, ids, now)[row.job.id := row]
    ensures RequeueRows(t[row.job.id := row], ids + {row.job.id}, now)
         == RequeueRows(t, ids, now)[row.job.id := RequeuedRow(row, now)]
  {
  }

  lemma {:induction false} OverAgeIdsAreOverAge(rows: seq<Row>, now: int, lease: int)
    requires UniqueIds(rows)
    ensures var ids := OverAgeIds(rows, now, lease);
      ids <= Ids(rows) && forall id <- ids :: OverAge(TableOf(rows)[id], now, lease)
  {
    if rows == [] {
    } else {
      hide UniqueIds, Ids, TableOf, OverAgeIds;
      FirstRow(rows);
      OverAgeIdsFromFirst(rows, now, lease);
      OverAgeIdsAreOverAge(rows[1..], now, lease);
    }
  }

  /** The sweep releases exactly the over-age rows. */
  lemma {:induction false} RequeueRefines(rows: seq<Row>, now: int, lease: int)
    requires UniqueIds(rows)
    ensures var rows' := RequeueScan(rows, now, lease);
      && UniqueIds(rows') && Ids(rows') == Ids(rows)
      && TableOf(rows') == RequeueRows(TableOf(rows), OverAgeIds(rows, now, lease), now)
  {
    if rows == [] {
    } else {
      hide UniqueIds, Ids, TableOf, OverAgeIds, RequeueRows;
      var first, rest := rows[0], rows[1..];
      FirstRow(rows);
      OverAgeIdsFromFirst(rows, now, lease);
      OverAgeIdsAreOverAge(rest, now, lease);
      RequeueRefines(rest, now, lease);
      RequeueRowsPrepend(TableOf(rest), first, OverAgeIds(rest, now, lease), now);
      PrependUnique(RequeueOne(first, now, lease), RequeueScan(rest, now, lease));
    }
  }

  // ----- runs of the store are runs of the protocol -----

  datatype StoreState = StoreState(clock: int, rows: seq<Row>, claims: set<Claim>, serial: nat, log: seq<Event>)

  ghost function Abstract(m: StoreState): State {
    State(m.clock, TableOf(m.rows), m.claims, m.serial, m.log)
  }

  /** The store's own operations; ids of inserted jobs are new, as fresh UUIDs are. */
  datatype Op =
    | Pass(elapsed: nat)
    | Add(job: Job)
    | Take(worker: WorkerId, now: int, max: nat)
    | Finish(claim: Claim, finished: int, next: Option<int>)
    | Sweep(now: int)
    | Abandon(claim: Claim)

  function StoreApply(cfg: Config, m: StoreState, op: Op): StoreState {
    match op
    case Pass(elapsed) => m.(clock := m.clock + elapsed)
    case Add(job) =>
      if job.id in Ids(m.rows) then m
      else m.(rows := m.rows + [Row(job, None, None, 0)], log := m.log + [Inserted(job.id, job.nextRunAt)])
    case Take(worker, now, max) =>
      if now > m.clock then m else
      var ids := ClaimedIds(ClaimedJobs(m.rows, now, max));
      StoreState(m.clock, ClaimScan(m.rows, worker, now, max),
                 m.claims + (set id | id in ids :: Claim(id, worker, now, m.serial)),
                 m.serial + 1, m.log + [Claimed(ids)])
    case Finish(claim, finished, next) =>
      if claim !in m.claims then m else
      StoreState(m.clock, CompleteScan(m.rows, claim.id, finished, next), m.claims - {claim},
                 m.serial, m.log + [Completed(claim.id, next)])
    case Sweep(now) =>
      if now > m.clock then m else
      m.(rows := RequeueScan(m.rows, now, cfg.lease),
         log := m.log + [Requeued(OverAgeIds(m.rows, now, cfg.lease), now)])
    case Abandon(claim) => m.(claims := m.claims - {claim})
  }

  predicate Possible(m: StoreState, op: Op) {
    match op
    case Add(job) => job.id !in Ids(m.rows)
    case Take(_, now, _) => now <= m.clock
    case Finish(claim, _, _) => claim in m.claims
    case Sweep(now) => now <= m.clock
    case _ => true
  }

  /** Taking the vector from `rows` to `rows'` is what the operation does, wherever it is possible. */
  ghost predicate Performs(cfg: Config, op: Op, rows: seq<Row>, rows': seq<Row>) {
    forall m: StoreState | m.rows == rows && Possible(m, op) :: StoreApply(cfg, m, op).rows == rows'
  }

  function StoreRun(cfg: Config, ops: seq<Op>): StoreState {
    if ops == [] then StoreState(0, [], {}, 0, [])
    else StoreApply(cfg, StoreRun(cfg, ops[..|ops| - 1]), ops[|ops| - 1])
  }

  ghost function Simulated(cfg: Config, m: StoreState, op: Op): Action {
    match op
    case Pass(elapsed) => Tick(elapsed)
    case Add(job) => Insert(job)
    case Take(worker, now, max) => ClaimDue(worker, now, max, ClaimedIds(ClaimedJobs(m.rows, now, max)))
    case Finish(claim, finished, next) => Complete(claim, finished, next)
    case Sweep(now) => RequeueStale(now, OverAgeIds(m.rows, now, cfg.lease))
    case Abandon(claim) => Die(claim)
  }

  lemma {:induction false} AddRefines(rows: seq<Row>, row: Row)
    requires UniqueIds(rows) && row.job.id !in Ids(rows)
    ensures UniqueIds(rows + [row]) && TableOf(rows + [row]) == TableOf(rows)[row.job.id := row]
    ensures Ids(rows + [row]) == Ids(rows) + {row.job.id}
  {
    if rows == [] {
      assert rows + [row] == [row] + rows;
      PrependUnique(row, rows);
    } else {
      assert rows + [row] == [rows[0]] + (rows[1..] + [row]);
      AddRefines(rows[1..], row);
      PrependUnique(rows[0], rows[1..] + [row]);
      hide UniqueIds, Ids, TableOf;
    }
  }

  lemma {:induction false} TakeRefines(cfg: Config, m: StoreState, worker: WorkerId, now: int, max: nat)
    requires UniqueIds(m.rows) && cfg.defer == YEAR_NS
    ensures var op := Take(worker, now, max);
      && UniqueIds(StoreApply(cfg, m, op).rows)
      && Abstract(StoreApply(cfg, m, op)) == Apply(cfg, Abstract(m), Simulated(cfg, m, op))
  {
    hide TableOf, ClaimScan, ClaimRows, ClaimedIds, UniqueIds, Ids, ClaimedJobs, Due;
    ClaimedJobsAreDue(m.rows, now, max);
    ClaimRefines(m.rows, worker, now, max);
  }

  lemma {:induction false} SweepRefines(cfg: Config, m: StoreState, now: int)
    requires UniqueIds(m.rows)
    ensures var op := Sweep(now);
      && UniqueIds(StoreApply(cfg, m, op).rows)
      && Abstract(StoreApply(cfg, m, op)) == Apply(cfg, Abstract(m), Simulated(cfg, m, op))
  {
    RequeueRefines(m.rows, now, cfg.lease);
    OverAgeIdsAreOverAge(m.rows, now, cfg.lease);
    hide TableOf, RequeueScan, RequeueRows, OverAgeIds, UniqueIds, Ids, OverAge;
  }

  /** Each operation of the store is one action of the protocol. */
  lemma {:induction false} StepRefines(cfg: Config, m: StoreState, op: Op)
    requires UniqueIds(m.rows) && cfg.defer == YEAR_NS
    ensures UniqueIds(StoreApply(cfg, m, op).rows)
    ensures Abstract(StoreApply(cfg, m, op)) == Apply(cfg, Abstract(m), Simulated(cfg, m, op))
  {
    match op
    case Take(worker, now, max) => TakeRefines(cfg, m, worker, now, max);
    case Sweep(now) => SweepRefines(cfg, m, now);
    case Add(job) =>
      if job.id !in Ids(m.rows) { AddRefines(m.rows, Row(job, None, None, 0)); }
      hide TableOf, Ids, UniqueIds;
    case Finish(claim, finished, next) =>
      CompleteRefines(m.rows, claim.id, finished, next);
      hide TableOf, CompleteScan, CompleteRow, Ids, UniqueIds;
    case Pass(_) =>
    case Abandon(_) =>
  }

  lemma {:induction false} StoreSnoc(cfg: Config, ops: seq<Op>)
    requires ops != []
    ensures StoreRun(cfg, ops) == StoreApply(cfg, StoreRun(cfg, ops[..|ops| - 1]), ops[|ops| - 1])
  {
  }

  /** The protocol's account of a run of the store. */
  ghost function Simulation(cfg: Config, ops: seq<Op>): (actions: seq<Action>)
    ensures |actions| == |ops|
  {
    if ops == [] then []
    else
      var before := ops[..|ops| - 1];
      Simulation(cfg, before) + [Simulated(cfg, StoreRun(cfg, before), ops[|ops| - 1])]
  }

  lemma {:induction false} SimulationPrefix(cfg: Config, ops: seq<Op>, n: nat)
    requires n <= |ops|
    ensures Simulation(cfg, ops)[..n] == Simulation(cfg, ops[..n])
  {
    if n == |ops| {
      assert ops[..n] == ops;
    } else {
      var before := ops[..|ops| - 1];
      SimulationPrefix(cfg, before, n);
      assert before[..n] == ops[..n];
      hide StoreRun, Simulated;
    }
  }

  lemma {:induction false} RunRefines(cfg: Config, ops: seq<Op>)
    requires cfg.defer == YEAR_NS
    ensures UniqueIds(StoreRun(cfg, ops).rows)
    ensures Run(cfg, Simulation(cfg, ops)) == Abstract(StoreRun(cfg, ops))
  {
    if ops == [] {
    } else {
      var before := ops[..|ops| - 1];
      StoreSnoc(cfg, ops);
      hide StoreRun, StoreApply, Run, Apply, Abstract, Simulated, UniqueIds;
      RunRefines(cfg, before);
      StepRefines(cfg, StoreRun(cfg, before), ops[|ops| - 1]);
      RunSnoc(cfg, Simulation(cfg, before), Simulated(cfg, StoreRun(cfg, before), ops[|ops| - 1]));
    }
  }

  /** Every run of the store is a run of the protocol, step for step. */
  lemma {:induction false} StoreRefinesProtocol(cfg: Config, ops: seq<Op>) returns (actions: seq<Action>)
    requires cfg.defer == YEAR_NS
    ensures UniqueIds(StoreRun(cfg, ops).rows) && |actions| == |ops|
    ensures forall n | 0 <= n <= |ops| :: Run(cfg, actions[..n]) == Abstract(StoreRun(cfg, ops[..n]))
  {
    actions := Simulation(cfg, ops);
    RunRefines(cfg, ops);
    hide *;
    forall n | 0 <= n <= |ops| ensures Run(cfg, actions[..n]) == Abstract(StoreRun(cfg, ops[..n])) {
      SimulationPrefix(cfg, ops, n);
      RunRefines(cfg, ops[..n]);
    }
  }

  /** So the store inherits exclusion, job by job, under the same timing assumption. */
  lemma {:induction false} StoreExclusion(cfg: Config, ops: seq<Op>, id: JobId)
    requires cfg.defer == YEAR_NS
    requires forall n | 0 <= n < |ops| ::
      forall c <- StoreRun(cfg, ops[..n]).claims :: c.id == id ==> StoreRun(cfg, ops[..n]).clock <= c.stamp + cfg.lease
    ensures var m := StoreRun(cfg, ops);
      && (forall c, d | c in m.claims && d in m.claims && c.id == id && d.id == id :: c == d)
      && forall c <- m.claims | c.id == id :: exists r <- m.rows ::
           r.job.id == c.id && r.claimedAt == Some(c.stamp) && r.workerId == Some(c.worker)
  {
    var actions := StoreRefinesProtocol(cfg, ops);
    assert actions[..|ops|] == actions && ops[..|ops|] == ops;
    LeaseExclusion(cfg, actions, id);
    var m := StoreRun(cfg, ops);
    forall c <- m.claims | c.id == id
      ensures exists r <- m.rows :: r.job.id == c.id && r.claimedAt == Some(c.stamp) && r.workerId == Some(c.worker)
    {
      TableRow(m.rows, c.id);
    }
  }

  /** The vectors a store goes through when each possible operation is carried out by its method. */
  ghost predicate Carried(cfg: Config, ops: seq<Op>, vectors: seq<seq<Row>>) {
    && |vectors| == |ops| + 1 && vectors[0] == []
    && forall n | 0 <= n < |ops| ::
         Possible(StoreRun(cfg, ops[..n]), ops[n]) && Performs(cfg, ops[n], vectors[n], vectors[n + 1])
  }

  lemma {:induction false} VectorsAreStoreRun(cfg: Config, ops: seq<Op>, vectors: seq<seq<Row>>)
    requires Carried(cfg, ops, vectors)
    ensures vectors[|ops|] == StoreRun(cfg, ops).rows
  {
    if ops == [] {
    } else {
      var n := |ops| - 1;
      StoreSnoc(cfg, ops);
      hide StoreRun, StoreApply, Possible;
      forall k | 0 <= k < n
        ensures Possible(StoreRun(cfg, ops[..n][..k]), ops[..n][k])
             && Performs(cfg, ops[..n][k], vectors[..n + 1][k], vectors[..n + 1][k + 1])
      {
        assert ops[..n][..k] == ops[..k];
      }
      VectorsAreStoreRun(cfg, ops[..n], vectors[..n + 1]);
      assert Possible(StoreRun(cfg, ops[..n]), ops[n]) && Performs(cfg, ops[n], vectors[n], vectors[n + 1]);
    }
  }

  /** Exclusion for the vector that the methods leave behind. */
  lemma {:induction false} VectorExclusion(cfg: Config, ops: seq<Op>, vectors: seq<seq<Row>>, id: JobId)
    requires Carried(cfg, ops, vectors) && cfg.defer == 365 * 86_400_000_000_000
    requires forall n | 0 <= n < |ops| ::
      forall c <- StoreRun(cfg, ops[..n]).claims :: c.id == id ==> StoreRun(cfg, ops[..n]).clock <= c.stamp + cfg.lease
    ensures var claims := StoreRun(cfg, ops).claims;
      && (forall c, d | c in claims && d in claims && c.id == id && d.id == id :: c == d)
      && forall c <- claims | c.id == id :: exists r <- vectors[|ops|] ::
           r.job.id == c.id && r.claimedAt == Some(c.stamp) && r.workerId == Some(c.worker)
  {
    VectorsAreStoreRun(cfg, ops, vectors);
    StoreExclusion(cfg, ops, id);
  }
}
