/**
  The job queue (`jobs/queue.py`): rows that change status, the query that picks the next one, and the
  session through which a queue reads and writes rows.
 */
module JobQueue {
  import opened Results

  type JobId = nat

  type Tenant = nat

  /** Seconds. */
  type Time = int

  datatype Status = Pending | Running | Completed | Failed | Cancelled

  datatype Job = Job(
    tenant: Tenant,
    priority: int,
    createdAt: Time,
    scheduledFor: Option<Time>,
    status: Status,
    retryCount: nat,
    maxRetries: nat,
    worker: Option<nat>,
    startedAt: Option<Time>,
    completedAt: Option<Time>)

  type Table = map<JobId, Job>

  // ----- what one call does to a row

  function Power2(n: nat): nat {
    if n == 0 then 1 else 2 * Power2(n - 1)
  }

  /** `calculate_retry_delay` */
  function RetryDelay(retryCount: nat): (delay: nat)
    ensures 1 <= delay <= 3600
  {
    PowerPositive(retryCount);
    var delay := 2 * Power2(retryCount);
    if delay < 3600 then delay else 3600
  }

  lemma PowerPositive(n: nat)
    ensures Power2(n) >= 1
  {
  }

  /** Two seconds at first, then twice as long each time, up to an hour. */
  lemma RetryDelayDoubles(n: nat)
    ensures RetryDelay(0) == 2
    ensures RetryDelay(n + 1) == if 2 * RetryDelay(n) < 3600 then 2 * RetryDelay(n) else 3600
  {
    PowerPositive(n);
  }

  function Claimed(j: Job, worker: nat, now: Time): Job {
    j.(status := Running, worker := Some(worker), startedAt := Some(now))
  }

  function Finished(j: Job, now: Time): Job {
    j.(status := Completed, completedAt := Some(now))
  }

  /** `fail` does not look at the status: a late call may revive a finished job. */
  function AfterFailure(j: Job, retry: bool, now: Time): Job {
    if retry && j.retryCount < j.maxRetries then
      j.(status := Pending, retryCount := j.retryCount + 1, worker := None, startedAt := None,
         scheduledFor := Some(now + RetryDelay(j.retryCount)))
    else j.(status := Failed, completedAt := Some(now))
  }

  predicate Cancellable(j: Job) {
    j.status == Pending || j.status == Running
  }

  function AfterCancel(j: Job, now: Time): Job {
    j.(status := Cancelled, completedAt := Some(now))
  }

  function Requeued(j: Job, resetRetries: bool): Job {
    j.(status := Pending, worker := None, startedAt := None, completedAt := None, scheduledFor := None,
       retryCount := if resetRetries then 0 else j.retryCount)
  }

  predicate IsStuck(j: Job, cutoff: Time) {
    j.status == Running && j.startedAt.Some? && j.startedAt.value < cutoff
  }

  /** `reclaim_stuck_jobs` counts the attempt first and then decides. */
  function Reclaimed(j: Job, now: Time): Job {
    var k := j.(status := Pending, retryCount := j.retryCount + 1, worker := None, startedAt := None);
    if k.retryCount >= k.maxRetries then k.(status := Failed, completedAt := Some(now)) else k
  }

  // ----- what a session writes

  /**
    A session decides on its own copy of a row and then writes the columns it has changed, and no
    others, over whatever the row holds by then.
   */
  function Flushed(row: Job, copy: Job, changed: Job): Job {
    row.(status := if changed.status != copy.status then changed.status else row.status,
         retryCount := if changed.retryCount != copy.retryCount then changed.retryCount else row.retryCount,
         worker := if changed.worker != copy.worker then changed.worker else row.worker,
         startedAt := if changed.startedAt != copy.startedAt then changed.startedAt else row.startedAt,
         completedAt := if changed.completedAt != copy.completedAt then changed.completedAt else row.completedAt,
         scheduledFor := if changed.scheduledFor != copy.scheduledFor then changed.scheduledFor else row.scheduledFor)
  }

  /** What nobody changes. */
  predicate SameJob(a: Job, b: Job) {
    a.tenant == b.tenant && a.priority == b.priority && a.createdAt == b.createdAt && a.maxRetries == b.maxRetries
  }

  /** With an up-to-date copy the row becomes what was decided. */
  lemma FlushedFresh(row: Job, changed: Job)
    requires SameJob(row, changed)
    ensures Flushed(row, row, changed) == changed
  {
  }

  // ----- picking the next job

  /** The rows the query may return: pending, due, of the tenant if one is given, and not locked. */
  predicate Eligible(j: Job, tenant: Option<Tenant>, now: Time) {
    && j.status == Pending
    && (j.scheduledFor.None? || j.scheduledFor.value <= now)
    && (tenant.None? || j.tenant == tenant.value)
  }

  function Candidates(jobs: Table, tenant: Option<Tenant>, now: Time, locked: set<JobId>): set<JobId> {
    set id | id in jobs && id !in locked && Eligible(jobs[id], tenant, now)
  }

  /** ORDER BY priority DESC, created_at ASC */
  predicate NotAfter(a: Job, b: Job) {
    a.priority > b.priority || (a.priority == b.priority && a.createdAt <= b.createdAt)
  }

  /** The row is one that the query may return first. */
  ghost predicate Best(jobs: Table, tenant: Option<Tenant>, now: Time, locked: set<JobId>, id: JobId) {
    && id in Candidates(jobs, tenant, now, locked)
    && forall c :: c in Candidates(jobs, tenant, now, locked) ==> NotAfter(jobs[id], jobs[c])
  }

  lemma NotAfterTransitive(a: Job, b: Job, c: Job)
    requires NotAfter(a, b) && NotAfter(b, c)
    ensures NotAfter(a, c)
  {
  }

  /** A non-empty set of rows has one that comes first. */
  lemma {:induction false} FirstExists(jobs: Table, ids: set<JobId>) returns (first: JobId)
    requires ids != {} && ids <= jobs.Keys
    ensures first in ids && forall c :: c in ids ==> NotAfter(jobs[first], jobs[c])
    decreases |ids|
  {
    first :| first in ids;
    if ids != {first} {
      var other := FirstExists(jobs, ids - {first});
      if !NotAfter(jobs[first], jobs[other]) {
        first := other;
      }
    }
  }

  /**
    The query over all tenants picks the best of what the queries of the single tenants pick.
   */
  lemma CrossTenantPick(jobs: Table, now: Time, locked: set<JobId>, id: JobId)
    ensures Best(jobs, None, now, locked, id) <==>
            && id in jobs && Best(jobs, Some(jobs[id].tenant), now, locked, id)
            && forall t, other :: Best(jobs, Some(t), now, locked, other) ==> NotAfter(jobs[id], jobs[other])
  {
    if id in jobs && Best(jobs, Some(jobs[id].tenant), now, locked, id)
       && forall t, other :: Best(jobs, Some(t), now, locked, other) ==> NotAfter(jobs[id], jobs[other])
    {
      forall c | c in Candidates(jobs, None, now, locked) ensures NotAfter(jobs[id], jobs[c]) {
        var t := Some(jobs[c].tenant);
        assert c in Candidates(jobs, t, now, locked);
        var first := FirstExists(jobs, Candidates(jobs, t, now, locked));
        assert Best(jobs, t, now, locked, first);
        NotAfterTransitive(jobs[id], jobs[first], jobs[c]);
      }
    }
  }

  // ----- draining a queue

  /** The identifiers one worker gets when nothing else happens to the table. */
  ghost predicate Drains(jobs: Table, tenant: Option<Tenant>, worker: nat, now: Time, ids: seq<JobId>)
    decreases |ids|
  {
    ids == [] ||
    (Best(jobs, tenant, now, {}, ids[0]) &&
     Drains(jobs[ids[0] := Claimed(jobs[ids[0]], worker, now)], tenant, worker, now, ids[1..]))
  }

  lemma {:induction false} DrainedAreCandidates(jobs: Table, tenant: Option<Tenant>, worker: nat, now: Time, ids: seq<JobId>)
    requires Drains(jobs, tenant, worker, now, ids)
    ensures forall i :: 0 <= i < |ids| ==> ids[i] in Candidates(jobs, tenant, now, {})
    ensures forall i, j :: 0 <= i < j < |ids| ==> ids[i] != ids[j]
    decreases |ids|
  {
    if ids != [] {
      var after := jobs[ids[0] := Claimed(jobs[ids[0]], worker, now)];
      DrainedAreCandidates(after, tenant, worker, now, ids[1..]);
      assert Candidates(after, tenant, now, {}) == Candidates(jobs, tenant, now, {}) - {ids[0]};
    }
  }

  /**
    Draining a static queue takes its jobs by falling priority and then by rising creation time.
   */
  lemma {:induction false} DrainOrder(jobs: Table, tenant: Option<Tenant>, worker: nat, now: Time, ids: seq<JobId>)
    requires Drains(jobs, tenant, worker, now, ids)
    ensures forall i, j :: 0 <= i < j < |ids| ==> ids[i] in jobs && ids[j] in jobs && NotAfter(jobs[ids[i]], jobs[ids[j]])
    decreases |ids|
  {
    DrainedAreCandidates(jobs, tenant, worker, now, ids);
    if ids != [] {
      var after := jobs[ids[0] := Claimed(jobs[ids[0]], worker, now)];
      DrainOrder(after, tenant, worker, now, ids[1..]);
      forall i, j | 0 <= i < j < |ids| ensures NotAfter(jobs[ids[i]], jobs[ids[j]]) {
        if i > 0 {
          assert ids[1..][i - 1] == ids[i] && ids[1..][j - 1] == ids[j];
          assert ids[i] != ids[0] && ids[j] != ids[0];
        }
      }
    }
  }

  function AfterDraining(jobs: Table, worker: nat, now: Time, ids: seq<JobId>): Table
    requires forall i :: 0 <= i < |ids| ==> ids[i] in jobs
    decreases |ids|
  {
    if ids == [] then jobs
    else AfterDraining(jobs[ids[0] := Claimed(jobs[ids[0]], worker, now)], worker, now, ids[1..])
  }

  /** What is left to take is what was not taken; so a drained queue has given out every due job. */
  lemma {:induction false} DrainTakesAll(jobs: Table, tenant: Option<Tenant>, worker: nat, now: Time, ids: seq<JobId>)
    requires Drains(jobs, tenant, worker, now, ids) && forall i :: 0 <= i < |ids| ==> ids[i] in jobs
    ensures Candidates(AfterDraining(jobs, worker, now, ids), tenant, now, {})
         == Candidates(jobs, tenant, now, {}) - (set id | id in ids)
    decreases |ids|
  {
    if ids != [] {
      var after := jobs[ids[0] := Claimed(jobs[ids[0]], worker, now)];
      DrainTakesAll(after, tenant, worker, now, ids[1..]);
      assert Candidates(after, tenant, now, {}) == Candidates(jobs, tenant, now, {}) - {ids[0]};
      assert (set id | id in ids) == {ids[0]} + (set id | id in ids[1..]) by {
        assert ids == [ids[0]] + ids[1..];
      }
    }
  }

  // ----- the queue

  /** The copy of a row that a session works on: the one it has loaded before, or the row itself. */
  function Held(jobs: Table, loaded: Table, id: JobId): Job
    requires id in jobs || id in loaded
  {
    if id in loaded then loaded[id] else jobs[id]
  }

  /** A queue with its session; `loaded` are the rows the session has read and not forgotten. */
  class Queue {
    var jobs: Table
    var loaded: Table

    constructor (jobs: Table)
      ensures this.jobs == jobs && loaded == map[]
    {
      this.jobs, loaded := jobs, map[];
    }

    /** `session.get`: a row that was loaded before is not read again. */
    method Get(id: JobId) returns (job: Option<Job>)
      modifies this`loaded
      ensures job.Some? <==> id in jobs || id in old(loaded)
      ensures job.Some? ==> job.value == Held(jobs, old(loaded), id) && loaded == old(loaded)[id := job.value]
      ensures job.None? ==> loaded == old(loaded)
    {
      if id in loaded {
        return Some(loaded[id]);
      }
      if id !in jobs {
        return None;
      }
      loaded := loaded[id := jobs[id]];
      return Some(jobs[id]);
    }

    /** `session.flush` with one changed object; it raises if the row is gone. */
    method Flush(id: JobId, changed: Job) returns (gone: bool)
      requires id in loaded
      modifies this
      ensures gone <==> id !in old(jobs)
      ensures !gone ==> jobs == old(jobs)[id := Flushed(old(jobs)[id], old(loaded)[id], changed)]
                        && loaded == old(loaded)[id := changed]
      ensures gone ==> jobs == old(jobs) && loaded == old(loaded)
    {
      if id !in jobs {
        return true;
      }
      jobs := jobs[id := Flushed(jobs[id], loaded[id], changed)];
      loaded := loaded[id := changed];
      return false;
    }

    /** `enqueue`; the identifier is a fresh one. */
    method Enqueue(id: JobId, tenant: Tenant, priority: int, scheduledFor: Option<Time>, maxRetries: nat, now: Time)
      requires id !in jobs
      modifies this`jobs
      ensures jobs == old(jobs)[id := Job(tenant, priority, now, scheduledFor, Pending, 0, maxRetries, None, None, None)]
    {
      jobs := jobs[id := Job(tenant, priority, now, scheduledFor, Pending, 0, maxRetries, None, None, None)];
    }

    /** `dequeue` for one tenant, `dequeue_next_job` for all; `locked` are the rows other workers hold. */
    method Dequeue(tenant: Option<Tenant>, worker: nat, now: Time, locked: set<JobId>) returns (picked: Option<JobId>)
      modifies this
      ensures picked.None? ==>
                jobs == old(jobs) && loaded == old(loaded) && Candidates(jobs, tenant, now, locked) == {}
      ensures picked.Some? ==>
                && Best(old(jobs), tenant, now, locked, picked.value)
                && Writes(old(jobs), old(loaded), picked.value,
                          Claimed(Held(old(jobs), old(loaded), picked.value), worker, now), jobs, loaded)
    {
      var all := Candidates(jobs, tenant, now, locked);
      var left := all;
      picked := None;
      while left != {}
        invariant left <= all
        invariant picked.None? ==> left == all
        invariant picked.Some? ==> picked.value in all && forall c :: c in all - left ==> NotAfter(jobs[picked.value], jobs[c])
      {
        var id :| id in left;
        left := left - {id};
        if picked.None? || !NotAfter(jobs[picked.value], jobs[id]) {
          picked := Some(id);
        }
      }
      if picked.Some? {
        var job := Get(picked.value);
        var gone := Flush(picked.value, job.value.(status := Running, worker := Some(worker), startedAt := Some(now)));
      }
    }

    /** `complete`: an UPDATE of the row, which the session's copy follows. */
    method Complete(id: JobId, now: Time)
      modifies this
      ensures jobs == if id in old(jobs) then old(jobs)[id := Finished(old(jobs)[id], now)] else old(jobs)
      ensures loaded == if id in old(jobs) || id in old(loaded)
                        then old(loaded)[id := Finished(Held(old(jobs), old(loaded), id), now)] else old(loaded)
    {
      var job := Get(id);
      if id in jobs {
        jobs := jobs[id := jobs[id].(status := Completed, completedAt := Some(now))];
      }
      if job.Some? {
        loaded := loaded[id := job.value.(status := Completed, completedAt := Some(now))];
      }
    }

    /** `fail`, which decides on the copy the session holds since the job was dequeued. */
    method Fail(id: JobId, retry: bool, now: Time) returns (gone: bool)
      modifies this
      ensures id !in old(jobs) && id !in old(loaded) ==> !gone && jobs == old(jobs) && loaded == old(loaded)
      ensures id in old(jobs) ==>
                !gone && Writes(old(jobs), old(loaded), id, AfterFailure(Held(old(jobs), old(loaded), id), retry, now), jobs, loaded)
      ensures id in old(loaded) && id !in old(jobs) ==> gone && jobs == old(jobs)
    {
      var found := Get(id);
      if found.None? {
        return false;
      }
      var job := found.value;
      if retry && job.retryCount < job.maxRetries {
        var delay := RetryDelay(job.retryCount);
        job := job.(status := Pending, retryCount := job.retryCount + 1);
        job := job.(worker := None, startedAt := None, scheduledFor := Some(now + delay));
      } else {
        job := job.(status := Failed, completedAt := Some(now));
      }
      gone := Flush(id, job);
    }

    /** `cancel`, deciding on the session's copy. */
    method Cancel(id: JobId, now: Time) returns (cancelled: bool, gone: bool)
      modifies this
      ensures cancelled || gone <==>
              (id in old(jobs) || id in old(loaded)) && Cancellable(Held(old(jobs), old(loaded), id))
      ensures gone ==> id !in old(jobs)
      ensures cancelled ==>
                id in old(jobs) && Writes(old(jobs), old(loaded), id, AfterCancel(Held(old(jobs), old(loaded), id), now), jobs, loaded)
      ensures !cancelled ==> jobs == old(jobs)
    {
      var job := Get(id);
      if job.None? || !(job.value.status == Pending || job.value.status == Running) {
        return false, false;
      }
      gone := Flush(id, job.value.(status := Cancelled, completedAt := Some(now)));
      cancelled := !gone;
    }

    /** `requeue_failed`, which reads the row again before it decides, and raises if it is gone. */
    method RequeueFailed(tenant: Tenant, id: JobId, resetRetries: bool) returns (requeued: bool, gone: bool)
      modifies this
      ensures gone <==> id in old(loaded) && id !in old(jobs)
      ensures requeued <==> id in old(jobs) && old(jobs)[id].status == Failed && old(jobs)[id].tenant == tenant
      ensures jobs == if requeued then old(jobs)[id := Requeued(old(jobs)[id], resetRetries)] else old(jobs)
    {
      var job := Get(id);
      if job.None? {
        return false, false;
      }
      if id !in jobs {
        return false, true;
      }
      loaded := loaded[id := jobs[id]];
      if jobs[id].status != Failed || jobs[id].tenant != tenant {
        return false, false;
      }
      FlushedFresh(jobs[id], Requeued(jobs[id], resetRetries));
      gone := Flush(id, Requeued(jobs[id], resetRetries));
      requeued := true;
    }

    /** The body of the loop of `reclaim_stuck_jobs`. */
    method ReclaimJob(id: JobId, now: Time)
      requires id in jobs
      modifies this
      ensures jobs == old(jobs)[id := Flushed(old(jobs)[id], Held(old(jobs), old(loaded), id),
                                               Reclaimed(Held(old(jobs), old(loaded), id), now))]
      ensures forall other :: other != id ==>
                (other in loaded <==> other in old(loaded)) && (other in loaded ==> loaded[other] == old(loaded)[other])
    {
      var job := Get(id);
      var k := job.value.(status := Pending, retryCount := job.value.retryCount + 1, worker := None, startedAt := None);
      if k.retryCount >= k.maxRetries {
        k := k.(status := Failed, completedAt := Some(now));
      }
      var gone := Flush(id, k);
    }

    /** `reclaim_stuck_jobs`: up to a thousand stuck jobs of the tenant that are not locked. */
    method ReclaimStuckJobs(tenant: Tenant, cutoff: Time, now: Time, locked: set<JobId>)
      returns (reclaimed: nat, chosen: set<JobId>)
      modifies this
      ensures chosen <= Stuck(old(jobs), tenant, cutoff, locked)
      ensures reclaimed == |chosen|
      ensures chosen == Stuck(old(jobs), tenant, cutoff, locked) || reclaimed == RECLAIM_LIMIT
      ensures jobs == WithReclaimed(old(jobs), old(loaded), chosen, now)
    {
      hide Reclaimed, Flushed, IsStuck;
      ghost var before, known := jobs, loaded;
      var left := Stuck(jobs, tenant, cutoff, locked);
      reclaimed, chosen := 0, {};
      assert jobs == WithReclaimed(before, known, chosen, now);
      while left != {} && reclaimed < RECLAIM_LIMIT
        invariant left !! chosen && left + chosen == Stuck(before, tenant, cutoff, locked)
        invariant reclaimed == |chosen| <= RECLAIM_LIMIT
        invariant jobs == WithReclaimed(before, known, chosen, now)
        invariant forall id :: id in left ==> (id in loaded <==> id in known) && (id in known ==> loaded[id] == known[id])
        decreases left
      {
        var id :| id in left;
        left := left - {id};
        ReclaimOneMore(before, known, chosen, id, now);
        ReclaimJob(id, now);
        chosen := chosen + {id};
        reclaimed := reclaimed + 1;
      }
    }
  }

  /** The session writes its decision about a row, which is there. */
  ghost predicate Writes(jobs: Table, loaded: Table, id: JobId, changed: Job, jobs': Table, loaded': Table)
    requires id in jobs
  {
    jobs' == jobs[id := Flushed(jobs[id], Held(jobs, loaded, id), changed)] && loaded' == loaded[id := changed]
  }

  const RECLAIM_LIMIT: nat := 1000

  function Stuck(jobs: Table, tenant: Tenant, cutoff: Time, locked: set<JobId>): set<JobId> {
    set id | id in jobs && id !in locked && jobs[id].tenant == tenant && IsStuck(jobs[id], cutoff)
  }

  function WithReclaimed(jobs: Table, loaded: Table, chosen: set<JobId>, now: Time): Table {
    map id | id in jobs ::
      if id in chosen
      then Flushed(jobs[id], Held(jobs, loaded, id), Reclaimed(Held(jobs, loaded, id), now))
      else jobs[id]
  }

  lemma ReclaimOneMore(jobs: Table, loaded: Table, chosen: set<JobId>, id: JobId, now: Time)
    requires id in jobs && id !in chosen
    ensures WithReclaimed(jobs, loaded, chosen, now)[id] == jobs[id]
    ensures WithReclaimed(jobs, loaded, chosen, now)
              [id := Flushed(jobs[id], Held(jobs, loaded, id), Reclaimed(Held(jobs, loaded, id), now))]
         == WithReclaimed(jobs, loaded, chosen + {id}, now)
  {
  }
}
