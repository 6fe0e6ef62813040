/**
  Concrete runs of the job queue in which late failures and kept retry counts show.
 */
module QueueWitnesses {
  import opened Results
  import opened JobQueue
  import opened QueueRuns

  function NewJob(maxRetries: nat): Job {
    Job(0, 50, 0, None, Pending, 0, maxRetries, None, None, None)
  }

  lemma {:induction false} RunConcat(s: System, a: seq<Event>, b: seq<Event>)
    requires Run(s, a).Some?
    ensures Run(s, a + b) == Run(Run(s, a).value, b)
    ensures Starts(a + b, 0) == Starts(a, 0) + Starts(b, 0)
  {
    hide Step, IsStart;
    if b == [] {
      assert a + b == a;
    } else {
      var init := b[..|b| - 1];
      RunConcat(s, a, init);
      assert (a + b)[..|a + b| - 1] == a + init;
    }
  }

  /** The events of a worker that claims job 0 and commits the claim. */
  function ClaimAndCommit(w: Session, now: Time): seq<Event> {
    [Claim(w, 0, None, now)] + [CommitClaim(w)]
  }

  lemma Claimable(s: System, row: Job, w: Session, now: Time)
    requires s.jobs == map[0 := row] && s.claims == map[] && w !in s.copies && Eligible(row, None, now)
    ensures var j := Claimed(row, w, now);
            && Run(s, ClaimAndCommit(w, now)) == Some(System(map[0 := j], map[], s.copies[w := Copy(0, j, true)]))
            && Starts(ClaimAndCommit(w, now), 0) == 1
  {
    var j := Claimed(row, w, now);
    assert 0 in Candidates(s.jobs, None, now, Locked(s)) && Best(s.jobs, None, now, Locked(s), 0);
    var t := System(s.jobs, map[w := 0], s.copies[w := Copy(0, j, true)]);
    assert Step(s, Claim(w, 0, None, now)) == Some(t);
    assert t.claims - {w} == map[] && s.jobs[0 := j] == map[0 := j];
    assert Step(t, CommitClaim(w)) == Some(System(map[0 := j], map[], t.copies));
    hide Step;
    RunConcat(s, [Claim(w, 0, None, now)], [CommitClaim(w)]);
  }

  /** A new job is claimed and its worker takes too long. */
  function ClaimedTooLong(maxRetries: nat): seq<Event> {
    [Enqueue(0, NewJob(maxRetries))] + ClaimAndCommit(1, 0) + [Reclaim(0, 1, 1)]
  }

  lemma AfterClaimedTooLong(maxRetries: nat) returns (b: System)
    ensures Run(EMPTY, ClaimedTooLong(maxRetries)) == Some(b) && Starts(ClaimedTooLong(maxRetries), 0) == 1
    ensures var j := Claimed(NewJob(maxRetries), 1, 0);
            b == System(map[0 := Reclaimed(j, 1)], map[], map[1 := Copy(0, j, true)])
  {
    var row := NewJob(maxRetries);
    var s := System(map[0 := row], map[], map[]);
    var first := [Enqueue(0, row)];
    assert Step(EMPTY, Enqueue(0, row)) == Some(s);
    Claimable(s, row, 1, 0);
    RunConcat(EMPTY, first, ClaimAndCommit(1, 0));
    var j := Claimed(row, 1, 0);
    var a := System(map[0 := j], map[], map[1 := Copy(0, j, true)]);
    b := System(map[0 := Reclaimed(j, 1)], map[], a.copies);
    hide Run, Starts, Best, ClaimAndCommit;
    assert a.claims.Values == {} && a.jobs[0 := Reclaimed(j, 1)] == b.jobs;
    assert Step(a, Reclaim(0, 1, 1)) == Some(b);
    RunConcat(EMPTY, first + ClaimAndCommit(1, 0), [Reclaim(0, 1, 1)]);
  }

  /** Five workers on a job with two retries: one reclaim, and three failures that come late. */
  function FiveClaims(): seq<Event> {
    ClaimedTooLong(2) + ClaimAndCommit(2, 1) + [Fail(1, true, 1)] + ClaimAndCommit(3, 4000)
    + [Fail(2, true, 4000)] + ClaimAndCommit(4, 8000) + [Fail(3, true, 8000)] + ClaimAndCommit(5, 12000)
  }

  /** The first two claims, the second after a reclaim. */
  lemma TwoClaims() returns (c: System)
    ensures var events := ClaimedTooLong(2) + ClaimAndCommit(2, 1);
            Run(EMPTY, events) == Some(c) && Starts(events, 0) == 2
    ensures c.claims == map[] && c.jobs.Keys == {0} && c.copies.Keys == {1, 2}
    ensures var j := c.jobs[0];
            && j.status == Running && j.worker.Some? && j.startedAt.Some? && j.retryCount == 1 && j.maxRetries == 2
            && j.scheduledFor == None && c.copies[2] == Copy(0, j, true)
            && c.copies[1].id == 0
    ensures var j := c.copies[1].job;
            j.status == Running && j.worker.Some? && j.startedAt.Some? && j.retryCount == 0 && j.maxRetries == 2
  {
    var b := AfterClaimedTooLong(2);
    hide Run, Starts, Best, Step, ClaimedTooLong;
    Claimable(b, b.jobs[0], 2, 1);
    RunConcat(EMPTY, ClaimedTooLong(2), ClaimAndCommit(2, 1));
    c := Run(b, ClaimAndCommit(2, 1)).value;
  }

  /**
    The late failures count: a job with two retries is started five times, not three, without any
    requeue and without any rollback; and five is the most there can be.
   */
  lemma LateFailuresExceed()
    ensures var events := FiveClaims();
            && Run(EMPTY, events).Some? && Starts(events, 0) == 5
            && 0 in Run(EMPTY, events).value.jobs && Run(EMPTY, events).value.jobs[0].maxRetries == 2
            && NothingGivenBack(events)
    ensures MostStarts(2) == 5
  {
    hide *;
    var two := ClaimedTooLong(2) + ClaimAndCommit(2, 1);
    MostStartsValue(2);
    assert Power2(1) == 2 by {
      Powers();
    }
    NoneInTwo();
    FiveClaimsAre(two);
    var c := TwoClaims();
    var d := FailAndClaim(two, c, c.jobs[0], 1, 3, 1, 4000);
    var three := two + [Fail(1, true, 1)] + ClaimAndCommit(3, 4000);
    var e := FailAndClaim(three, d, d.jobs[0], 2, 4, 4000, 8000);
    var four := three + [Fail(2, true, 4000)] + ClaimAndCommit(4, 8000);
    var f := FailAndClaim(four, e, e.jobs[0], 3, 5, 8000, 12000);
  }

  ghost predicate NothingGivenBack(events: seq<Event>) {
    forall e :: e in events ==> !e.Requeue? && !e.RequeueRow? && !e.AbortClaim? && !e.Complete? && !e.Cancel?
  }

  lemma NoneInTwo()
    ensures NothingGivenBack(ClaimedTooLong(2) + ClaimAndCommit(2, 1))
  {
  }

  lemma Powers()
    ensures Power2(0) == 1 && Power2(1) == 2
  {
  }

  lemma FiveClaimsAre(two: seq<Event>)
    requires two == ClaimedTooLong(2) + ClaimAndCommit(2, 1)
    ensures FiveClaims() == two + [Fail(1, true, 1)] + ClaimAndCommit(3, 4000) + [Fail(2, true, 4000)] + ClaimAndCommit(4, 8000)
                            + [Fail(3, true, 8000)] + ClaimAndCommit(5, 12000)
  {
    hide ClaimAndCommit;
  }

  /** One worker fails late, and another claims the job. */
  lemma FailAndClaim(events: seq<Event>, s: System, row: Job, w: Session, v: Session, now: Time, later: Time) returns (t: System)
    requires Run(EMPTY, events) == Some(s) && s.jobs.Keys == {0} && s.jobs[0] == row && s.claims == map[]
    requires row.status == Running && row.worker.Some? && row.startedAt.Some?
    requires row.scheduledFor.Some? ==> row.scheduledFor.value <= later
    requires w in s.copies && s.copies[w].id == 0 && v !in s.copies && now + 3600 <= later
    requires s.copies[w].job.status == Running && s.copies[w].job.worker.Some? && s.copies[w].job.startedAt.Some?
    requires s.copies[w].job.retryCount < s.copies[w].job.maxRetries
    ensures var more := events + [Fail(w, true, now)] + ClaimAndCommit(v, later);
            && Run(EMPTY, more) == Some(t) && Starts(more, 0) == Starts(events, 0) + 1
            && (NothingGivenBack(events) ==> NothingGivenBack(more))
    ensures t.claims == map[] && t.jobs.Keys == {0}
    ensures var j := t.jobs[0];
            && j.status == Running && j.worker.Some? && j.startedAt.Some?
            && j.retryCount == s.copies[w].job.retryCount + 1 && j.maxRetries == row.maxRetries
            && (j.scheduledFor.Some? ==> j.scheduledFor.value <= later)
            && t.copies.Keys == s.copies.Keys + {v} && t.copies[v] == Copy(0, j, true)
            && (forall u :: u in s.copies && u != w ==> t.copies[u] == s.copies[u])
  {
    var failure, claim := [Fail(w, true, now)], ClaimAndCommit(v, later);
    assert NothingGivenBack(failure);
    t := AfterBoth(s, row, w, v, now, later);
    hide *;
    RunConcat(EMPTY, events, failure);
    RunConcat(EMPTY, events + failure, claim);
    RunConcat(s, failure, claim);
  }

  lemma AfterBoth(s: System, row: Job, w: Session, v: Session, now: Time, later: Time) returns (t: System)
    requires s.jobs.Keys == {0} && s.jobs[0] == row && s.claims == map[]
    requires row.status == Running && row.worker.Some? && row.startedAt.Some?
    requires row.scheduledFor.Some? ==> row.scheduledFor.value <= later
    requires w in s.copies && s.copies[w].id == 0 && v !in s.copies && now + 3600 <= later
    requires s.copies[w].job.status == Running && s.copies[w].job.worker.Some? && s.copies[w].job.startedAt.Some?
    requires s.copies[w].job.retryCount < s.copies[w].job.maxRetries
    ensures Run(s, [Fail(w, true, now)]).Some?
    ensures Run(Run(s, [Fail(w, true, now)]).value, ClaimAndCommit(v, later)) == Some(t)
    ensures Starts([Fail(w, true, now)], 0) == 0 && Starts(ClaimAndCommit(v, later), 0) == 1
    ensures t.claims == map[] && t.jobs.Keys == {0}
    ensures var j := t.jobs[0];
            && j.status == Running && j.worker.Some? && j.startedAt.Some?
            && j.retryCount == s.copies[w].job.retryCount + 1 && j.maxRetries == row.maxRetries
            && (j.scheduledFor.Some? ==> j.scheduledFor.value <= later)
            && t.copies.Keys == s.copies.Keys + {v} && t.copies[v] == Copy(0, j, true)
            && (forall u :: u in s.copies && u != w ==> t.copies[u] == s.copies[u])
  {
    assert s.jobs == map[0 := row];
    hide AfterFailure, Step, Run, Starts, ClaimAndCommit;
    var failed := Step(s, Fail(w, true, now)).value;
    assert failed.jobs == map[0 := failed.jobs[0]];
    Claimable(failed, failed.jobs[0], v, later);
    t := Run(failed, ClaimAndCommit(v, later)).value;
  }

  /** A job without retries that is reclaimed and then requeued with its count kept. */
  function OverLimit(): seq<Event> {
    ClaimedTooLong(0) + [RequeueRow(0, false)]
  }

  /** From the empty queue to a pending job over its limit. */
  lemma PendingOverLimit()
    ensures Run(EMPTY, OverLimit()).Some?
    ensures var s := Run(EMPTY, OverLimit()).value;
            0 in s.jobs && s.jobs[0].status == Pending && s.jobs[0].retryCount == 1 && s.jobs[0].maxRetries == 0
  {
    var b := AfterClaimedTooLong(0);
    hide Run, ClaimedTooLong;
    assert b.claims.Values == {};
    RunConcat(EMPTY, ClaimedTooLong(0), [RequeueRow(0, false)]);
  }
}
