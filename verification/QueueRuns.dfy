/**
  Any number of sessions on one job queue.  A claim holds a row lock until its transaction ends, other
  claims skip locked rows and other writes wait for them; the task of a claimed job runs from the
  claim on, before and after it is committed.  `fail` and `cancel` decide on the copy of the row that their
  session holds, for a worker the one it took when it claimed the job, however late the call.
 */
module QueueRuns {
  import opened Results
  import opened JobQueue

  type Session = nat

  /** A session's copy of a row; `claimed` for a worker that has not yet reported the job it claimed. */
  datatype Copy = Copy(id: JobId, job: Job, claimed: bool)

  /** The committed rows, the rows claimed but not committed, and the sessions' copies. */
  datatype System = System(jobs: Table, claims: map<Session, JobId>, copies: map<Session, Copy>)

  datatype Event =
    | Enqueue(id: JobId, job: Job)
    | Claim(session: Session, id: JobId, tenant: Option<Tenant>, now: Time)
    | CommitClaim(session: Session)
    | AbortClaim(session: Session)
    | EndSession(session: Session)
    | Load(session: Session, id: JobId)
    | Complete(session: Session, id: JobId, now: Time)
    | Fail(session: Session, retry: bool, now: Time)
    | Cancel(session: Session, now: Time)
    | Requeue(session: Session, resetRetries: bool)
    | RequeueRow(id: JobId, resetRetries: bool)
    | Reclaim(id: JobId, cutoff: Time, now: Time)
    | Purge(id: JobId)

  const EMPTY: System := System(map[], map[], map[])

  function Locked(s: System): set<JobId> {
    s.claims.Values
  }

  predicate Unlocked(s: System, id: JobId) {
    id in s.jobs && id !in Locked(s)
  }

  predicate HoldsClaim(s: System, session: Session, id: JobId) {
    session in s.claims && s.claims[session] == id
  }

  /** The row is there and locked by nobody else, and the session has claimed no other. */
  predicate CanWrite(s: System, session: Session, id: JobId) {
    id in s.jobs && (if id in Locked(s) then HoldsClaim(s, session, id) else session !in s.claims)
  }

  /** The row as the session's transaction has it: with its own claim, if that is not committed yet. */
  function RowFor(s: System, session: Session, id: JobId): Job
    requires id in s.jobs
  {
    if HoldsClaim(s, session, id) && session in s.copies then s.copies[session].job else s.jobs[id]
  }

  /** The session writes a row and commits. */
  function Put(s: System, session: Session, id: JobId, j: Job): System {
    s.(jobs := s.jobs[id := j], claims := s.claims - {session})
  }

  predicate HasCopy(s: System, session: Session, id: JobId) {
    session in s.copies && s.copies[session].id == id
  }

  /** The session writes what it has decided on its copy. */
  function WriteCopy(s: System, session: Session, changed: Job, claimed: bool): System
    requires session in s.copies && s.copies[session].id in s.jobs
  {
    var c := s.copies[session];
    Put(s, session, c.id, Flushed(RowFor(s, session, c.id), c.job, changed))
    .(copies := s.copies[session := c.(job := changed, claimed := claimed)])
  }

  /** The system after an event, if the event can happen. */
  ghost function Step(s: System, e: Event): Option<System> {
    match e
    case Enqueue(id, job) =>
      if id !in s.jobs && job.status == Pending && job.retryCount == 0 && forall v :: v in s.copies ==> s.copies[v].id != id
      then Some(s.(jobs := s.jobs[id := job])) else None
    case Claim(session, id, tenant, now) =>
      if session !in s.claims && session !in s.copies && Best(s.jobs, tenant, now, Locked(s), id)
      then Some(s.(claims := s.claims[session := id],
                   copies := s.copies[session := Copy(id, Claimed(s.jobs[id], session, now), true)])) else None
    case CommitClaim(session) =>
      if session in s.claims && session in s.copies
      then Some(Put(s, session, s.claims[session], s.copies[session].job)) else None
    case AbortClaim(session) =>
      if session in s.claims then Some(s.(claims := s.claims - {session}, copies := s.copies - {session})) else None
    case EndSession(session) =>
      if session !in s.claims then Some(s.(copies := s.copies - {session})) else None
    case Load(session, id) =>
      if session !in s.claims && id in s.jobs
      then Some(s.(copies := s.copies[session := Copy(id, s.jobs[id], false)])) else None
    case Complete(session, id, now) =>
      if !CanWrite(s, session, id) then None
      else
        var t := Put(s, session, id, Finished(RowFor(s, session, id), now));
        Some(if HasCopy(s, session, id)
             then t.(copies := s.copies[session := s.copies[session].(job := Finished(s.copies[session].job, now))])
             else t)
    case Fail(session, retry, now) =>
      if session in s.copies && CanWrite(s, session, s.copies[session].id)
      then Some(WriteCopy(s, session, AfterFailure(s.copies[session].job, retry, now), false)) else None
    case Cancel(session, now) =>
      if session in s.copies && CanWrite(s, session, s.copies[session].id) && Cancellable(s.copies[session].job)
      then Some(WriteCopy(s, session, AfterCancel(s.copies[session].job, now), s.copies[session].claimed)) else None
    case Requeue(session, resetRetries) =>
      if session in s.copies && CanWrite(s, session, s.copies[session].id) && s.copies[session].job.status == Failed
      then Some(WriteCopy(s, session, Requeued(s.copies[session].job, resetRetries), false)) else None
    case RequeueRow(id, resetRetries) =>
      if Unlocked(s, id) && s.jobs[id].status == Failed
      then Some(s.(jobs := s.jobs[id := Requeued(s.jobs[id], resetRetries)])) else None
    case Reclaim(id, cutoff, now) =>
      if Unlocked(s, id) && IsStuck(s.jobs[id], cutoff)
      then Some(s.(jobs := s.jobs[id := Reclaimed(s.jobs[id], now)])) else None
    case Purge(id) =>
      if Unlocked(s, id) && s.jobs[id].status != Pending && s.jobs[id].status != Running
      then Some(s.(jobs := s.jobs - {id})) else None
  }

  /** An uncommitted claim: its row is still pending, and the session's copy is the claimed row. */
  ghost predicate ClaimOf(s: System, w: Session) {
    && w in s.claims && s.claims[w] in s.jobs && s.jobs[s.claims[w]].status == Pending
    && HasCopy(s, w, s.claims[w]) && s.copies[w].claimed
    && s.copies[w].job ==
       s.jobs[s.claims[w]].(status := Running, worker := s.copies[w].job.worker, startedAt := s.copies[w].job.startedAt)
  }

  ghost predicate SameLimits(s: System) {
    forall w :: w in s.copies && s.copies[w].id in s.jobs ==>
      s.copies[w].job.maxRetries == s.jobs[s.copies[w].id].maxRetries
  }

  /** Claims are held by different sessions on different pending rows; nobody changes a job's limit. */
  ghost predicate Inv(s: System) {
    && (forall v, w :: v in s.claims && w in s.claims && s.claims[v] == s.claims[w] ==> v == w)
    && (forall w :: w in s.claims ==> ClaimOf(s, w))
    && SameLimits(s)
  }

  lemma LockedBy(s: System, id: JobId)
    ensures id in Locked(s) <==> exists w :: HoldsClaim(s, w, id)
  {
    if id in Locked(s) {
      var w :| w in s.claims && s.claims[w] == id;
      assert HoldsClaim(s, w, id);
    }
    if w :| HoldsClaim(s, w, id) {
      assert s.claims[w] in s.claims.Values;
    }
  }

  lemma StepKeepsLimits(s: System, e: Event)
    requires Inv(s) && Step(s, e).Some?
    ensures SameLimits(Step(s, e).value)
  {
  }

  lemma StepKeepsClaims(s: System, e: Event, w: Session)
    requires Inv(s) && Step(s, e).Some? && w in Step(s, e).value.claims
    ensures ClaimOf(Step(s, e).value, w)
  {
    var t := Step(s, e).value;
    LockedBy(s, t.claims[w]);
    assert w in s.claims ==> ClaimOf(s, w) && HoldsClaim(s, w, s.claims[w]);
    hide Flushed, AfterFailure, AfterCancel, Requeued, Reclaimed, Best;
    if e.CommitClaim? {
      assert s.claims[w] != s.claims[e.session];
    }
  }

  lemma StepKeepsInv(s: System, e: Event)
    requires Inv(s) && Step(s, e).Some?
    ensures Inv(Step(s, e).value)
  {
    var t := Step(s, e).value;
    StepKeepsLimits(s, e);
    forall w | w in t.claims
      ensures ClaimOf(t, w)
    {
      StepKeepsClaims(s, e, w);
    }
    StepKeepsDistinct(s, e);
  }

  lemma StepKeepsDistinct(s: System, e: Event)
    requires Inv(s) && Step(s, e).Some?
    ensures var t := Step(s, e).value;
            forall v, w :: v in t.claims && w in t.claims && t.claims[v] == t.claims[w] ==> v == w
  {
    hide Flushed, AfterFailure, AfterCancel, Requeued, Reclaimed, ClaimOf, SameLimits;
    if e.Claim? {
      LockedBy(s, e.id);
      assert forall v :: v in s.claims ==> HoldsClaim(s, v, s.claims[v]);
    }
  }

  // ----- runs

  ghost function Run(s: System, events: seq<Event>): Option<System> {
    if events == [] then Some(s)
    else
      var before := Run(s, events[..|events| - 1]);
      if before.None? then None else Step(before.value, events[|events| - 1])
  }

  lemma {:induction false} RunKeepsInv(s: System, events: seq<Event>)
    requires Inv(s) && Run(s, events).Some?
    ensures Inv(Run(s, events).value)
  {
    hide Inv, Step;
    if events != [] {
      RunKeepsInv(s, events[..|events| - 1]);
      StepKeepsInv(Run(s, events[..|events| - 1]).value, events[|events| - 1]);
    }
  }

  lemma {:induction false} RunPrefix(s: System, events: seq<Event>, k: nat)
    requires Run(s, events).Some? && k <= |events|
    ensures Run(s, events[..k]).Some?
  {
    hide Step;
    if k < |events| {
      RunPrefix(s, events[..|events| - 1], k);
      assert events[..|events| - 1][..k] == events[..k];
    } else {
      assert events[..k] == events;
    }
  }

  /** Two sessions never hold a claim on the same job. */
  lemma NoTwoClaims(events: seq<Event>, v: Session, w: Session)
    requires Run(EMPTY, events).Some? && v != w
    ensures var s := Run(EMPTY, events).value;
            v in s.claims && w in s.claims ==> s.claims[v] != s.claims[w]
  {
    RunKeepsInv(EMPTY, events);
  }

  // ----- how often a job is started

  /** The task of job `id` starts. */
  predicate IsStart(e: Event, id: JobId) {
    e.Claim? && e.id == id
  }

  function Starts(events: seq<Event>, id: JobId): nat {
    if events == [] then 0
    else Starts(events[..|events| - 1], id) + (if IsStart(events[|events| - 1], id) then 1 else 0)
  }

  /** The event requeues the job and does not mean to reset its retry count. */
  ghost predicate KeepsRetries(s: System, e: Event, id: JobId) {
    || (e.RequeueRow? && e.id == id && !e.resetRetries)
    || (e.Requeue? && !e.resetRetries && HasCopy(s, e.session, id))
  }

  ghost predicate ResetsRetries(s: System, e: Event, id: JobId) {
    || (e.RequeueRow? && e.id == id && e.resetRetries)
    || (e.Requeue? && e.resetRetries && HasCopy(s, e.session, id))
    || (e.Enqueue? && e.id == id)
  }

  /** A claim of the job is rolled back after its task has started. */
  ghost predicate Aborts(s: System, e: Event, id: JobId) {
    e.AbortClaim? && HoldsClaim(s, e.session, id)
  }

  /** What the run gives back: kept requeues and aborted claims. */
  ghost function GivenBack(s: System, events: seq<Event>, id: JobId): nat
    requires Run(s, events).Some?
  {
    if events == [] then 0
    else
      var init, last := events[..|events| - 1], events[|events| - 1];
      var before := Run(s, init).value;
      GivenBack(s, init, id) + (if KeepsRetries(before, last, id) || Aborts(before, last, id) then 1 else 0)
  }

  function RetriesLeft(j: Job): nat {
    if j.retryCount < j.maxRetries then j.maxRetries - j.retryCount else 0
  }

  /** The row can be claimed once more as it is. */
  ghost predicate Waiting(s: System, id: JobId) {
    Unlocked(s, id) && s.jobs[id].status == Pending
  }

  /** How often the job can still be started, going by its row. */
  ghost function StartsLeft(s: System, id: JobId): nat {
    if id in s.jobs then RetriesLeft(s.jobs[id]) + (if Waiting(s, id) then 1 else 0) else 0
  }

  /**
    A failure that hands back retries which others have used up: the session's copy has a lower count
    than the row.  It can be told before the call, by comparing the copy with the row.
   */
  ghost predicate Regains(s: System, e: Event, id: JobId) {
    && e.Fail? && e.retry && HasCopy(s, e.session, id) && id in s.jobs
    && var copy, row := s.copies[e.session].job, s.jobs[id];
       RetriesLeft(row) + (if Waiting(s, id) then 1 else 0) + (if copy.status == Pending && row.status != Pending then 1 else 0)
         < RetriesLeft(copy)
  }

  lemma RegainsIsStale(s: System, e: Event, id: JobId)
    requires Inv(s) && Regains(s, e, id)
    ensures s.copies[e.session].job.retryCount < s.jobs[id].retryCount
  {
  }

  /** The account of one step: a start costs one, a kept requeue or an aborted claim gives one back. */
  ghost predicate Overdraws(s: System, e: Event, id: JobId)
    requires Step(s, e).Some?
  {
    StartsLeft(Step(s, e).value, id) + (if IsStart(e, id) then 1 else 0)
      > StartsLeft(s, id) + (if KeepsRetries(s, e, id) || Aborts(s, e, id) then 1 else 0)
  }

  /** A step hands out more starts than the job has left if and only if it is such a failure. */
  lemma OverdrawsIff(s: System, e: Event, id: JobId)
    requires Inv(s) && Step(s, e).Some? && !ResetsRetries(s, e, id)
    ensures Overdraws(s, e, id) <==> Regains(s, e, id)
  {
    hide *;
    if e.Fail? {
      FailureOverdrawsIff(s, e, id);
    } else if e.Complete? || e.Cancel? || e.Requeue? {
      WritesStayWithin(s, e, id);
    } else {
      OthersStayWithin(s, e, id);
    }
  }

  lemma FailureOverdrawsIff(s: System, e: Event, id: JobId)
    requires Inv(s) && Step(s, e).Some? && e.Fail?
    ensures Overdraws(s, e, id) <==> Regains(s, e, id)
  {
    LockedAfter(s, e, id);
    RowOfClaim(s);
    hide Locked, RetryDelay, NotAfter;
  }

  lemma WritesStayWithin(s: System, e: Event, id: JobId)
    requires Inv(s) && Step(s, e).Some? && !ResetsRetries(s, e, id) && (e.Complete? || e.Cancel? || e.Requeue?)
    ensures !Overdraws(s, e, id) && !Regains(s, e, id)
  {
    LockedAfter(s, e, id);
    RowOfClaim(s);
    hide Inv, Locked;
  }

  lemma OthersStayWithin(s: System, e: Event, id: JobId)
    requires Inv(s) && Step(s, e).Some? && !ResetsRetries(s, e, id)
    requires !e.Fail? && !e.Complete? && !e.Cancel? && !e.Requeue?
    ensures !Overdraws(s, e, id) && !Regains(s, e, id)
  {
    LockedAfter(s, e, id);
    RowOfClaim(s);
    hide Inv, Locked, NotAfter;
  }

  /** A session that holds a claim has the limits and the count of the row. */
  lemma RowOfClaim(s: System)
    requires Inv(s)
    ensures forall w :: w in s.claims ==>
              HasCopy(s, w, s.claims[w]) && s.claims[w] in s.jobs && s.jobs[s.claims[w]].status == Pending
              && s.copies[w].job.retryCount == s.jobs[s.claims[w]].retryCount
              && s.copies[w].job.maxRetries == s.jobs[s.claims[w]].maxRetries && s.copies[w].job.status == Running
  {
  }

  predicate Unlocks(s: System, e: Event, id: JobId) {
    (e.CommitClaim? || e.AbortClaim? || e.Complete? || e.Fail? || e.Cancel? || e.Requeue?) && HoldsClaim(s, e.session, id)
  }

  /** The lock of a row changes hands only with its own events. */
  lemma LockedAfter(s: System, e: Event, id: JobId)
    requires Inv(s) && Step(s, e).Some?
    ensures id in Locked(Step(s, e).value) <==>
            IsStart(e, id) || (id in Locked(s) && !Unlocks(s, e, id))
  {
    var t := Step(s, e).value;
    LockedBy(s, id);
    LockedBy(t, id);
    hide Locked, Best, Flushed, AfterFailure, AfterCancel, Requeued, Reclaimed, ClaimOf, SameLimits;
    if w :| HoldsClaim(s, w, id) {
      assert w in t.claims ==> HoldsClaim(t, w, id);
    }
    if w :| HoldsClaim(t, w, id) {
      assert w in s.claims ==> HoldsClaim(s, w, id);
    }
    assert e.Claim? ==> HoldsClaim(t, e.session, e.id);
  }

  /** The system before event `i` of a run. */
  ghost function At(s: System, events: seq<Event>, i: nat): System
    requires Run(s, events).Some? && i <= |events|
  {
    RunPrefix(s, events, i);
    Run(s, events[..i]).value
  }

  lemma AtOfPrefix(s: System, events: seq<Event>, i: nat)
    requires Run(s, events).Some? && i < |events|
    ensures Run(s, events[..|events| - 1]).Some? && At(s, events[..|events| - 1], i) == At(s, events, i)
  {
    RunPrefix(s, events, |events| - 1);
    assert events[..|events| - 1][..i] == events[..i];
  }

  ghost predicate NeverResets(s: System, events: seq<Event>, id: JobId)
    requires Run(s, events).Some?
  {
    forall i :: 0 <= i < |events| ==> !ResetsRetries(At(s, events, i), events[i], id)
  }

  ghost predicate NeverRegains(s: System, events: seq<Event>, id: JobId)
    requires Run(s, events).Some?
  {
    forall i :: 0 <= i < |events| ==> !Regains(At(s, events, i), events[i], id)
  }

  /** The conditions on a run hold of its beginning and of its last event. */
  lemma Never(s: System, events: seq<Event>, id: JobId)
    requires Run(s, events).Some? && events != []
    ensures var init, last := events[..|events| - 1], events[|events| - 1];
            && Run(s, init).Some? && Run(s, events) == Step(Run(s, init).value, last)
            && (NeverResets(s, events, id) ==>
                  NeverResets(s, init, id) && !ResetsRetries(Run(s, init).value, last, id))
            && (NeverRegains(s, events, id) ==>
                  NeverRegains(s, init, id) && !Regains(Run(s, init).value, last, id))
  {
    var init := events[..|events| - 1];
    RunPrefix(s, events, |init|);
    assert At(s, events, |init|) == Run(s, init).value;
    hide ResetsRetries, Regains, At;
    forall i | 0 <= i < |init|
      ensures At(s, init, i) == At(s, events, i) && init[i] == events[i]
    {
      AtOfPrefix(s, events, i);
    }
  }

  lemma {:induction false} StartsAreBounded(s: System, events: seq<Event>, id: JobId)
    requires Inv(s) && Run(s, events).Some? && NeverResets(s, events, id) && NeverRegains(s, events, id)
    ensures Starts(events, id) + StartsLeft(Run(s, events).value, id) <= StartsLeft(s, id) + GivenBack(s, events, id)
  {
    if events != [] {
      var init, last := events[..|events| - 1], events[|events| - 1];
      Never(s, events, id);
      StartsAreBounded(s, init, id);
      RunKeepsInv(s, init);
      OverdrawsIff(Run(s, init).value, last, id);
      hide Step, StartsLeft, NeverResets, NeverRegains, Inv, IsStart, KeepsRetries, Aborts;
    }
  }

  /**
    Bounded attempts: between resets of its retry count, whatever the interleaving, the task of a job
    starts at most `maxRetries + 1` times, and once more for each requeue that keeps the count and each
    claim that is rolled back, as long as no late failure hands back retries that others have used.
   */
  lemma AttemptsAreBounded(s: System, events: seq<Event>, id: JobId)
    requires Inv(s) && Run(s, events).Some? && id in s.jobs
    requires NeverResets(s, events, id) && NeverRegains(s, events, id)
    ensures Starts(events, id) <= s.jobs[id].maxRetries + 1 + GivenBack(s, events, id)
  {
    StartsAreBounded(s, events, id);
  }

  // ----- late failures

  /** The most starts of a waiting job with so many retries left, when every worker may fail late. */
  function MostStarts(left: nat): nat {
    if left == 0 then 1
    else if left == 1 then 2
    else 1 + 2 * MostStarts(left - 1)
  }

  lemma {:induction false} MostStartsClosed(left: nat)
    requires left >= 1
    ensures MostStarts(left) == 3 * Power2(left - 1) - 1
  {
    if left > 1 {
      MostStartsClosed(left - 1);
    }
  }

  lemma {:induction false} MostStartsGrows(a: nat, b: nat)
    requires a <= b
    ensures MostStarts(a) <= MostStarts(b)
  {
    if a < b {
      MostStartsGrows(a, b - 1);
    }
  }

  /** What the failure of a worker can still bring about, and what a reclaim of a running job can. */
  function AfterAFailure(left: nat): nat {
    if left == 0 then 0 else MostStarts(left - 1)
  }

  function AfterAReclaim(left: nat): nat {
    if left <= 1 then 0 else MostStarts(left - 1)
  }

  /** A waiting job starts once, and then its worker may fail and its row may be reclaimed. */
  lemma MostStartsSplit(left: nat)
    ensures MostStarts(left) == 1 + AfterAFailure(left) + AfterAReclaim(left)
  {
  }

  /** What the row of the job can still bring about. */
  ghost function FromRow(s: System, id: JobId): nat {
    if id !in s.jobs then 0
    else
      var j := s.jobs[id];
      if id in Locked(s) || j.status == Running then AfterAReclaim(RetriesLeft(j))
      else if j.status == Pending then MostStarts(RetriesLeft(j))
      else 0
  }

  function FromCopy(c: Copy, id: JobId): nat {
    if c.claimed && c.id == id then AfterAFailure(RetriesLeft(c.job)) else 0
  }

  /** What the workers that have not reported yet can still bring about. */
  ghost function FromCopies(copies: map<Session, Copy>, id: JobId): nat
    decreases |copies.Keys|
  {
    if copies == map[] then 0
    else
      var w :| w in copies;
      assert (copies - {w}).Keys == copies.Keys - {w};
      FromCopies(copies - {w}, id) + FromCopy(copies[w], id)
  }

  lemma {:induction false} FromOneCopy(copies: map<Session, Copy>, id: JobId, w: Session)
    requires w in copies
    ensures FromCopies(copies, id) == FromCopies(copies - {w}, id) + FromCopy(copies[w], id)
    decreases |copies.Keys|
  {
    hide FromCopy;
    var v :| v in copies && FromCopies(copies, id) == FromCopies(copies - {v}, id) + FromCopy(copies[v], id);
    if v != w {
      assert (copies - {v}).Keys == copies.Keys - {v} && (copies - {w}).Keys == copies.Keys - {w};
      FromOneCopy(copies - {v}, id, w);
      FromOneCopy(copies - {w}, id, v);
      assert copies - {v} - {w} == copies - {w} - {v};
    }
  }

  function FromSession(copies: map<Session, Copy>, id: JobId, w: Session): nat {
    if w in copies then FromCopy(copies[w], id) else 0
  }

  /** Only one session's copy has changed. */
  lemma OneSession(copies: map<Session, Copy>, after: map<Session, Copy>, id: JobId, w: Session)
    requires copies - {w} == after - {w}
    ensures FromCopies(after, id) + FromSession(copies, id, w) == FromCopies(copies, id) + FromSession(after, id, w)
  {
    hide FromCopy;
    Apart(copies, id, w);
    Apart(after, id, w);
  }

  lemma Apart(copies: map<Session, Copy>, id: JobId, w: Session)
    ensures FromCopies(copies, id) == FromCopies(copies - {w}, id) + FromSession(copies, id, w)
  {
    if w in copies {
      FromOneCopy(copies, id, w);
    } else {
      assert copies - {w} == copies;
    }
  }

  ghost function StartsPossible(s: System, id: JobId): nat {
    FromRow(s, id) + FromCopies(s.copies, id)
  }

  /** In the application only a worker fails a job, and only the one it claimed. */
  ghost predicate ByWorker(s: System, e: Event) {
    e.Fail? && e.session in s.copies ==> s.copies[e.session].claimed
  }

  /** What a step gives back: an aborted claim one start, a kept requeue what its row can bring about. */
  ghost function Returned(s: System, e: Event, id: JobId): nat {
    if Aborts(s, e, id) then 1
    else if KeepsRetries(s, e, id) && id in s.jobs then MostStarts(RetriesLeft(s.jobs[id]))
    else 0
  }

  /** The session whose copy the event may change. */
  function Actor(e: Event): Session {
    if e.Enqueue? || e.RequeueRow? || e.Reclaim? || e.Purge? then 0 else e.session
  }

  lemma OnlyActor(s: System, e: Event)
    requires Step(s, e).Some?
    ensures Step(s, e).value.copies - {Actor(e)} == s.copies - {Actor(e)}
  {
    hide Flushed, AfterFailure, AfterCancel, Requeued, Reclaimed, Best, Locked;
  }

  /** The account of a step for the row of the job and the copy of the session that acts. */
  ghost predicate PaysFor(s: System, e: Event, id: JobId)
    requires Step(s, e).Some?
  {
    var t, w := Step(s, e).value, Actor(e);
    FromRow(t, id) + FromSession(t.copies, id, w) + (if IsStart(e, id) then 1 else 0)
      <= FromRow(s, id) + FromSession(s.copies, id, w) + Returned(s, e, id)
  }

  lemma ClaimsPay(s: System, e: Event, id: JobId)
    requires Inv(s) && Step(s, e).Some? && (e.Claim? || e.CommitClaim? || e.AbortClaim?)
    ensures PaysFor(s, e, id)
  {
    LockedAfter(s, e, id);
    LockedBy(s, id);
    if id in s.jobs {
      MostStartsSplit(RetriesLeft(s.jobs[id]));
    }
    hide Locked, RetryDelay, MostStarts, AfterAFailure, AfterAReclaim;
  }

  lemma FailurePays(s: System, e: Event, id: JobId)
    requires Inv(s) && Step(s, e).Some? && e.Fail? && ByWorker(s, e)
    ensures PaysFor(s, e, id)
  {
    LockedAfter(s, e, id);
    LockedBy(s, id);
    hide Locked, RetryDelay, MostStarts;
  }

  lemma WritesPay(s: System, e: Event, id: JobId)
    requires Inv(s) && Step(s, e).Some? && (e.Complete? || e.Cancel? || e.Requeue?) && !ResetsRetries(s, e, id)
    ensures PaysFor(s, e, id)
  {
    LockedAfter(s, e, id);
    LockedBy(s, id);
    hide Locked, MostStarts;
  }

  lemma OthersPay(s: System, e: Event, id: JobId)
    requires Inv(s) && Step(s, e).Some? && !ResetsRetries(s, e, id)
    requires e.Enqueue? || e.EndSession? || e.Load? || e.RequeueRow? || e.Reclaim? || e.Purge?
    ensures PaysFor(s, e, id)
  {
    LockedAfter(s, e, id);
    hide Locked, MostStarts;
  }

  lemma RowAndCopy(s: System, e: Event, id: JobId)
    requires Inv(s) && Step(s, e).Some? && !ResetsRetries(s, e, id) && ByWorker(s, e)
    ensures PaysFor(s, e, id)
  {
    hide *;
    match e
    case Claim(_, _, _, _) => ClaimsPay(s, e, id);
    case CommitClaim(_) => ClaimsPay(s, e, id);
    case AbortClaim(_) => ClaimsPay(s, e, id);
    case Fail(_, _, _) => FailurePays(s, e, id);
    case Complete(_, _, _) => WritesPay(s, e, id);
    case Cancel(_, _) => WritesPay(s, e, id);
    case Requeue(_, _) => WritesPay(s, e, id);
    case _ => OthersPay(s, e, id);
  }

  lemma StepCostsStarts(s: System, e: Event, id: JobId)
    requires Inv(s) && Step(s, e).Some? && !ResetsRetries(s, e, id) && ByWorker(s, e)
    ensures StartsPossible(Step(s, e).value, id) + (if IsStart(e, id) then 1 else 0) <= StartsPossible(s, id) + Returned(s, e, id)
  {
    var t, w := Step(s, e).value, Actor(e);
    OnlyActor(s, e);
    OneSession(s.copies, t.copies, id, w);
    RowAndCopy(s, e, id);
    assert PaysFor(s, e, id);
    hide *;
    assert StartsPossible(t, id) == FromRow(t, id) + FromCopies(t.copies, id) by {
      Possible(t, id);
    }
    Possible(s, id);
  }

  lemma Possible(s: System, id: JobId)
    ensures StartsPossible(s, id) == FromRow(s, id) + FromCopies(s.copies, id)
  {
  }

  ghost predicate OnlyWorkersFail(s: System, events: seq<Event>)
    requires Run(s, events).Some?
  {
    forall i :: 0 <= i < |events| ==> ByWorker(At(s, events, i), events[i])
  }

  lemma OnlyWorkersFailInit(s: System, events: seq<Event>)
    requires Run(s, events).Some? && events != [] && OnlyWorkersFail(s, events)
    ensures var init := events[..|events| - 1];
            Run(s, init).Some? && OnlyWorkersFail(s, init) && ByWorker(Run(s, init).value, events[|events| - 1])
  {
    var init := events[..|events| - 1];
    RunPrefix(s, events, |init|);
    assert At(s, events, |init|) == Run(s, init).value;
    hide ByWorker, At;
    forall i | 0 <= i < |init|
      ensures At(s, init, i) == At(s, events, i) && init[i] == events[i]
    {
      AtOfPrefix(s, events, i);
    }
  }

  ghost function KeptRequeues(s: System, events: seq<Event>, id: JobId): nat
    requires Run(s, events).Some?
  {
    if events == [] then 0
    else
      var init, last := events[..|events| - 1], events[|events| - 1];
      KeptRequeues(s, init, id) + (if KeepsRetries(Run(s, init).value, last, id) then 1 else 0)
  }

  ghost function AbortedClaims(s: System, events: seq<Event>, id: JobId): nat
    requires Run(s, events).Some?
  {
    if events == [] then 0
    else
      var init, last := events[..|events| - 1], events[|events| - 1];
      AbortedClaims(s, init, id) + (if Aborts(Run(s, init).value, last, id) then 1 else 0)
  }

  /** Nothing changes the limit of a job while it exists. */
  ghost predicate LimitIs(s: System, id: JobId, limit: nat) {
    id in s.jobs ==> s.jobs[id].maxRetries == limit
  }

  lemma StepKeepsLimit(s: System, e: Event, id: JobId, limit: nat)
    requires Inv(s) && Step(s, e).Some? && !ResetsRetries(s, e, id) && LimitIs(s, id, limit)
    ensures LimitIs(Step(s, e).value, id, limit)
    ensures Returned(s, e, id) <=
            (if Aborts(s, e, id) then 1 else 0) + (if KeepsRetries(s, e, id) then MostStarts(limit) else 0)
  {
    hide Locked, Best, MostStarts, RetryDelay;
    if id in s.jobs {
      MostStartsGrows(RetriesLeft(s.jobs[id]), limit);
    }
  }

  ghost function ReturnedInRun(s: System, events: seq<Event>, id: JobId): nat
    requires Run(s, events).Some?
  {
    if events == [] then 0
    else
      var init, last := events[..|events| - 1], events[|events| - 1];
      ReturnedInRun(s, init, id) + Returned(Run(s, init).value, last, id)
  }

  lemma {:induction false} RunCostsStarts(s: System, events: seq<Event>, id: JobId)
    requires Inv(s) && Run(s, events).Some? && NeverResets(s, events, id) && OnlyWorkersFail(s, events)
    ensures Starts(events, id) + StartsPossible(Run(s, events).value, id) <= StartsPossible(s, id) + ReturnedInRun(s, events, id)
  {
    if events != [] {
      var init, last := events[..|events| - 1], events[|events| - 1];
      Never(s, events, id);
      OnlyWorkersFailInit(s, events);
      RunCostsStarts(s, init, id);
      RunKeepsInv(s, init);
      StepCostsStarts(Run(s, init).value, last, id);
      hide Step, StartsPossible, NeverResets, OnlyWorkersFail, Inv, IsStart, Returned;
    }
  }

  lemma {:induction false} ReturnedIsBounded(s: System, events: seq<Event>, id: JobId, limit: nat)
    requires Inv(s) && Run(s, events).Some? && NeverResets(s, events, id) && LimitIs(s, id, limit)
    ensures LimitIs(Run(s, events).value, id, limit)
    ensures ReturnedInRun(s, events, id)
         <= AbortedClaims(s, events, id) + Times(KeptRequeues(s, events, id), MostStarts(limit))
  {
    hide *;
    if events == [] {
      SumsOfNothing(s, id);
      OneMoreTime(0, MostStarts(limit));
    } else {
      var init, last := events[..|events| - 1], events[|events| - 1];
      Never(s, events, id);
      SumsOfInit(s, events, id);
      ReturnedIsBounded(s, init, id, limit);
      RunKeepsInv(s, init);
      var before := Run(s, init).value;
      StepKeepsLimit(before, last, id, limit);
      AddUp(ReturnedInRun(s, init, id), Returned(before, last, id), AbortedClaims(s, init, id), KeptRequeues(s, init, id),
        Aborts(before, last, id), KeepsRetries(before, last, id), MostStarts(limit));
    }
  }

  lemma AddUp(returned: nat, more: nat, aborted: nat, kept: nat, aborts: bool, keeps: bool, most: nat)
    requires returned <= aborted + Times(kept, most) && more <= (if aborts then 1 else 0) + (if keeps then most else 0)
    ensures returned + more <= aborted + (if aborts then 1 else 0) + Times(kept + if keeps then 1 else 0, most)
  {
    OneMoreTime(kept, most);
    hide Times;
  }

  lemma SumsOfNothing(s: System, id: JobId)
    ensures Run(s, []) == Some(s)
    ensures ReturnedInRun(s, [], id) == AbortedClaims(s, [], id) == KeptRequeues(s, [], id) == 0
  {
  }

  lemma SumsOfInit(s: System, events: seq<Event>, id: JobId)
    requires Run(s, events).Some? && events != []
    ensures var init, last := events[..|events| - 1], events[|events| - 1];
            && Run(s, init).Some?
            && ReturnedInRun(s, events, id) == ReturnedInRun(s, init, id) + Returned(Run(s, init).value, last, id)
            && AbortedClaims(s, events, id) ==
               AbortedClaims(s, init, id) + (if Aborts(Run(s, init).value, last, id) then 1 else 0)
            && KeptRequeues(s, events, id) ==
               KeptRequeues(s, init, id) + (if KeepsRetries(Run(s, init).value, last, id) then 1 else 0)
  {
    hide Step, Returned, Aborts, KeepsRetries;
  }

  function Times(a: nat, b: nat): nat {
    a * b
  }

  lemma OneMoreTime(a: nat, b: nat)
    ensures Times(a + 1, b) == Times(a, b) + b && Times(0, b) == 0
  {
  }

  /**
    With every worker allowed to fail as late as it likes, a new job starts at most
    `3 * 2^(maxRetries - 1) - 1` times (once without retries), and once more for each claim that is
    rolled back, if no requeue keeps its count.
   */
  lemma LateAttemptsAreBounded(s: System, events: seq<Event>, id: JobId)
    requires Inv(s) && Run(s, events).Some? && NeverResets(s, events, id) && OnlyWorkersFail(s, events)
    requires id in s.jobs && forall w :: w in s.copies ==> s.copies[w].id != id
    ensures var limit := s.jobs[id].maxRetries;
            Starts(events, id) <= AbortedClaims(s, events, id) + Times(1 + KeptRequeues(s, events, id), MostStarts(limit))
    ensures MostStarts(s.jobs[id].maxRetries) ==
            if s.jobs[id].maxRetries == 0 then 1 else 3 * Power2(s.jobs[id].maxRetries - 1) - 1
  {
    hide *;
    var limit := s.jobs[id].maxRetries;
    assert LimitIs(s, id, limit) by {
      LimitAtFirst(s, id);
    }
    Possible(s, id);
    RowIsBounded(s, id);
    MostStartsValue(limit);
    RunCostsStarts(s, events, id);
    ReturnedIsBounded(s, events, id, limit);
    NoCopiesOf(s.copies, id);
    OneMoreTime(KeptRequeues(s, events, id), MostStarts(limit));
  }

  lemma LimitAtFirst(s: System, id: JobId)
    requires id in s.jobs
    ensures LimitIs(s, id, s.jobs[id].maxRetries)
  {
  }

  lemma MostStartsValue(limit: nat)
    ensures MostStarts(limit) == if limit == 0 then 1 else 3 * Power2(limit - 1) - 1
  {
    if limit > 0 {
      MostStartsClosed(limit);
    }
  }

  lemma RowIsBounded(s: System, id: JobId)
    requires id in s.jobs
    ensures FromRow(s, id) <= MostStarts(s.jobs[id].maxRetries)
  {
    var left, limit := RetriesLeft(s.jobs[id]), s.jobs[id].maxRetries;
    MostStartsGrows(left, limit);
    if left > 1 {
      MostStartsGrows(left - 1, limit);
    }
  }

  lemma {:induction false} NoCopiesOf(copies: map<Session, Copy>, id: JobId)
    requires forall w :: w in copies ==> copies[w].id != id
    ensures FromCopies(copies, id) == 0
    decreases |copies.Keys|
  {
    if w :| w in copies {
      assert (copies - {w}).Keys == copies.Keys - {w};
      NoCopiesOf(copies - {w}, id);
      FromOneCopy(copies, id, w);
    } else {
      assert copies == map[];
    }
  }

  // ----- the retry count of pending jobs

  ghost predicate WithinRetries(s: System, id: JobId) {
    id in s.jobs && (s.jobs[id].status == Pending || s.jobs[id].status == Running) ==>
      s.jobs[id].retryCount <= s.jobs[id].maxRetries
  }

  /** A requeue that does not write the count, of a row whose count is over its limit. */
  ghost predicate RevivesOverLimit(s: System, e: Event, id: JobId) {
    && id in s.jobs && s.jobs[id].retryCount > s.jobs[id].maxRetries
    && ((e.RequeueRow? && e.id == id && !e.resetRetries) ||
        (e.Requeue? && HasCopy(s, e.session, id) && (!e.resetRetries || s.copies[e.session].job.retryCount == 0)))
  }

  lemma StepWithinIff(s: System, e: Event, id: JobId)
    requires Inv(s) && Step(s, e).Some? && WithinRetries(s, id)
    ensures WithinRetries(Step(s, e).value, id) <==> !RevivesOverLimit(s, e, id)
  {
    LockedBy(s, id);
    hide Locked, RetryDelay;
  }

  ghost predicate AlwaysWithin(s: System, events: seq<Event>, id: JobId)
    requires Run(s, events).Some?
  {
    forall i :: 0 <= i <= |events| ==> WithinRetries(At(s, events, i), id)
  }

  ghost predicate NeverRevives(s: System, events: seq<Event>, id: JobId)
    requires Run(s, events).Some?
  {
    forall i :: 0 <= i < |events| ==> !RevivesOverLimit(At(s, events, i), events[i], id)
  }

  lemma NextAt(s: System, events: seq<Event>, i: nat)
    requires Run(s, events).Some? && i < |events|
    ensures Step(At(s, events, i), events[i]) == Some(At(s, events, i + 1))
  {
    RunPrefix(s, events, i);
    RunPrefix(s, events, i + 1);
    assert events[..i + 1][..i] == events[..i];
    hide Step;
  }

  /**
    In every run, late calls included: the retry count of a pending or running job stays within its
    limit after every step if and only if no requeue revives a row over its limit without writing the count.
   */
  lemma PendingWithinRetriesIff(s: System, events: seq<Event>, id: JobId)
    requires Inv(s) && Run(s, events).Some? && WithinRetries(s, id)
    ensures AlwaysWithin(s, events, id) <==> NeverRevives(s, events, id)
  {
    if AlwaysWithin(s, events, id) {
      forall i | 0 <= i < |events|
        ensures !RevivesOverLimit(At(s, events, i), events[i], id)
      {
        InvAt(s, events, i);
        NextAt(s, events, i);
        StepWithinIff(At(s, events, i), events[i], id);
      }
    }
    if NeverRevives(s, events, id) {
      forall i | 0 <= i <= |events|
        ensures WithinRetries(At(s, events, i), id)
      {
        WithinUpTo(s, events, id, i);
      }
    }
  }

  lemma InvAt(s: System, events: seq<Event>, i: nat)
    requires Inv(s) && Run(s, events).Some? && i <= |events|
    ensures Inv(At(s, events, i))
  {
    RunPrefix(s, events, i);
    RunKeepsInv(s, events[..i]);
  }

  lemma {:induction false} WithinUpTo(s: System, events: seq<Event>, id: JobId, i: nat)
    requires Inv(s) && Run(s, events).Some? && WithinRetries(s, id) && NeverRevives(s, events, id) && i <= |events|
    ensures WithinRetries(At(s, events, i), id)
  {
    hide Step, Inv, WithinRetries, RevivesOverLimit;
    if i == 0 {
      assert events[..0] == [] && At(s, events, 0) == s;
    } else {
      WithinUpTo(s, events, id, i - 1);
      InvAt(s, events, i - 1);
      NextAt(s, events, i - 1);
      StepWithinIff(At(s, events, i - 1), events[i - 1], id);
    }
  }

  // ----- no job is started twice

  /** The events that can make a job claimable again. */
  ghost predicate MakesWaiting(s: System, e: Event, id: JobId) {
    || (e.Fail? && HasCopy(s, e.session, id) && e.retry)
    || (e.Requeue? && HasCopy(s, e.session, id))
    || ((e.Reclaim? || e.RequeueRow? || e.Enqueue?) && e.id == id)
    || Aborts(s, e, id)
  }

  lemma StepKeepsNotWaiting(s: System, e: Event, id: JobId)
    requires Step(s, e).Some? && Inv(s) && !MakesWaiting(s, e, id)
    ensures !Waiting(s, id) || IsStart(e, id) ==> !Waiting(Step(s, e).value, id)
    ensures IsStart(e, id) ==> Waiting(s, id)
  {
    LockedAfter(s, e, id);
    LockedBy(s, id);
    hide Locked, RetryDelay;
  }

  ghost predicate NeverMakesWaiting(s: System, events: seq<Event>, id: JobId)
    requires Run(s, events).Some?
  {
    forall i :: 0 <= i < |events| ==> !MakesWaiting(At(s, events, i), events[i], id)
  }

  lemma {:induction false} NotStartedUpTo(s: System, events: seq<Event>, id: JobId, i: nat)
    requires Run(s, events).Some? && Inv(s) && !Waiting(s, id) && NeverMakesWaiting(s, events, id) && i <= |events|
    ensures !Waiting(At(s, events, i), id) && Starts(events[..i], id) == 0
  {
    hide Step, Inv, Waiting, MakesWaiting, IsStart;
    if i == 0 {
      assert events[..0] == [] && At(s, events, 0) == s;
    } else {
      NotStartedUpTo(s, events, id, i - 1);
      InvAt(s, events, i - 1);
      NextAt(s, events, i - 1);
      StepKeepsNotWaiting(At(s, events, i - 1), events[i - 1], id);
      assert events[..i][..i - 1] == events[..i - 1];
    }
  }

  /** After a start, the job is not started again without a failure, a reclaim, a requeue or a rollback in between. */
  lemma ClaimedOnce(s: System, e: Event, events: seq<Event>, id: JobId)
    requires Inv(s) && Step(s, e).Some? && IsStart(e, id) && Run(Step(s, e).value, events).Some?
    requires NeverMakesWaiting(Step(s, e).value, events, id)
    ensures Starts(events, id) == 0
  {
    var t := Step(s, e).value;
    StepKeepsInv(s, e);
    StepKeepsNotWaiting(s, e, id);
    hide Step, Inv, Waiting, MakesWaiting, NeverMakesWaiting;
    NotStartedUpTo(t, events, id, |events|);
    assert events[..|events|] == events;
  }
}
