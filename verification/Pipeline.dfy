/**
  The bounded-concurrency pipeline (`jobs/pipeline.py`) as a system of atomic steps.

  A step is what one coroutine does between two suspensions.  The locks of the source are only
  held inside such a step, so they do not appear.  The producer is `FilePipeline.run`; task `i`
  is the `_run_one` of the `i`-th listed file; every release schedules one `_notify` task.
 */
module Pipeline {
  import opened Results

  /** The size estimates of the listed files are what the budget counts. */
  function Estimate(size: nat): nat {
    if size < 1024 then 1024 else size
  }

  datatype Config = Config(maxConcurrent: nat, maxBytes: nat, commitInterval: nat)

  datatype Phase = Created | Processing | Committing | Finishing | Decremented | Done

  datatype Producer =
    | Fetching        // waiting for the next listed file
    | Checking        // asking the cancellation function, a file in hand
    | AwaitingSlot    // at the count semaphore, a file in hand
    | AwaitingMemory  // about to test the budget, holding a slot
    | Parked          // waiting on the condition variable, holding a slot
    | Notified        // woken, about to test the budget again
    | Draining        // in `finally`, gathering the tasks
    | Committed       // the final commit is under way
    | Finished

  datatype State = State(
    producer: Producer,
    tasks: seq<Phase>,
    permits: nat,
    bytes: nat,
    notifies: nat,
    active: int,
    highWater: int,
    sinceCommit: nat,
    succeeded: nat,
    failed: nat,
    commits: nat,
    errored: nat,
    cancelled: bool,
    listingFailed: bool)

  datatype Action =
    | Take(check: bool)
    | AnswerCheck(cancel: bool)
    | StopCancelled
    | EndListing
    | FailListing  // the listing, or the cancellation function, raises
    | AcquireSlot
    | TestMemory
    | Notify
    | Start(i: nat)
    | Succeed(i: nat)
    | Fail(i: nat)
    | CommitEnds(i: nat, raises: bool)
    | Decrement(i: nat)
    | Release(i: nat)
    | Cancel(i: nat)
    | Gathered
    | FinalCommitEnds

  function Init(cfg: Config): State {
    State(Fetching, [], cfg.maxConcurrent, 0, 0, 0, 0, 0, 0, 0, 0, 0, false, false)
  }

  /** The test of `MemoryBudgetSemaphore.acquire`: room, or nothing reserved at all. */
  predicate Admits(bytes: nat, size: nat, maxBytes: nat) {
    bytes + size <= maxBytes || bytes == 0
  }

  /** `should_commit`: the new counter, and whether a commit is due. */
  function CommitTick(sinceCommit: nat, interval: nat): (nat, bool) {
    if sinceCommit + 1 >= interval then (0, true) else (sinceCommit + 1, false)
  }

  predicate InPhase(s: State, i: nat, phase: Phase) {
    i < |s.tasks| && s.tasks[i] == phase
  }

  function Moved(s: State, i: nat, phase: Phase): State
    requires i < |s.tasks|
  {
    s.(tasks := s.tasks[i := phase])
  }

  predicate AllDone(tasks: seq<Phase>) {
    forall i :: 0 <= i < |tasks| ==> tasks[i] == Done
  }

  /** The state after an action, if the action is possible; `files` are the listed sizes. */
  function Step(files: seq<nat>, cfg: Config, s: State, a: Action): Option<State> {
    match a
    case Take(check) =>
      if s.producer == Fetching && |s.tasks| < |files| && !s.cancelled
      then Some(s.(producer := if check then Checking else AwaitingSlot)) else None
    case AnswerCheck(cancel) =>
      if s.producer != Checking then None
      else Some(if cancel then s.(producer := Draining, cancelled := true) else s.(producer := AwaitingSlot))
    case StopCancelled =>
      if s.producer == Fetching && |s.tasks| < |files| && s.cancelled then Some(s.(producer := Draining)) else None
    case EndListing =>
      if s.producer == Fetching && |s.tasks| == |files| then Some(s.(producer := Draining)) else None
    case FailListing =>
      if s.producer == Fetching || s.producer == Checking
      then Some(s.(producer := Draining, listingFailed := true)) else None
    case AcquireSlot =>
      if s.producer == AwaitingSlot && s.permits > 0
      then Some(s.(producer := AwaitingMemory, permits := s.permits - 1)) else None
    case TestMemory =>
      if (s.producer == AwaitingMemory || s.producer == Notified) && |s.tasks| < |files| then
        var size := Estimate(files[|s.tasks|]);
        if Admits(s.bytes, size, cfg.maxBytes)
        then Some(s.(producer := Fetching, bytes := s.bytes + size, tasks := s.tasks + [Created]))
        else Some(s.(producer := Parked))
      else None
    case Notify =>
      if s.notifies == 0 then None
      else Some(s.(notifies := s.notifies - 1, producer := if s.producer == Parked then Notified else s.producer))
    case Start(i) =>
      if !InPhase(s, i, Created) then None
      else
        var active := s.active + 1;
        Some(Moved(s, i, Processing).(active := active, highWater := if active > s.highWater then active else s.highWater))
    case Succeed(i) =>
      if !InPhase(s, i, Processing) then None
      else
        var (sinceCommit, due) := CommitTick(s.sinceCommit, cfg.commitInterval);
        Some(Moved(s, i, if due then Committing else Finishing)
             .(succeeded := s.succeeded + 1, sinceCommit := sinceCommit,
               commits := if due then s.commits + 1 else s.commits))
    case Fail(i) =>
      if !InPhase(s, i, Processing) then None
      else Some(Moved(s, i, Finishing).(failed := s.failed + 1, errored := s.errored + 1))
    case CommitEnds(i, raises) =>
      if !InPhase(s, i, Committing) then None
      else Some(Moved(s, i, Finishing).(errored := if raises then s.errored + 1 else s.errored))
    case Decrement(i) =>
      if !InPhase(s, i, Finishing) then None else Some(Moved(s, i, Decremented).(active := s.active - 1))
    case Release(i) =>
      if !InPhase(s, i, Decremented) || i >= |files| then None
      else
        var size := Estimate(files[i]);
        Some(Moved(s, i, Done)
             .(bytes := if s.bytes < size then 0 else s.bytes - size,
               notifies := s.notifies + 1, permits := s.permits + 1))
    case Cancel(i) =>
      if !InPhase(s, i, Processing) || s.cancelled then None else Some(s.(cancelled := true))
    case Gathered =>
      if s.producer == Draining && AllDone(s.tasks) then Some(s.(producer := Committed)) else None
    case FinalCommitEnds =>
      if s.producer == Committed then Some(s.(producer := Finished)) else None
  }

  // ----- sums over the tasks

  type Weight = (nat, Phase) -> nat

  function Total(tasks: seq<Phase>, w: Weight): nat {
    if tasks == [] then 0 else Total(tasks[..|tasks| - 1], w) + w(|tasks| - 1, tasks[|tasks| - 1])
  }

  lemma {:induction false} TotalUpdate(tasks: seq<Phase>, i: nat, phase: Phase, w: Weight)
    requires i < |tasks|
    ensures Total(tasks[i := phase], w) + w(i, tasks[i]) == Total(tasks, w) + w(i, phase)
  {
    var n := |tasks| - 1;
    var changed := tasks[i := phase];
    if i == n {
      assert changed[..n] == tasks[..n];
    } else {
      assert changed[..n] == tasks[..n][i := phase];
      TotalUpdate(tasks[..n], i, phase, w);
    }
  }

  lemma TotalAppend(tasks: seq<Phase>, phase: Phase, w: Weight)
    ensures Total(tasks + [phase], w) == Total(tasks, w) + w(|tasks|, phase)
  {
    assert (tasks + [phase])[..|tasks|] == tasks;
  }

  lemma {:induction false} TotalAtLeast(tasks: seq<Phase>, i: nat, w: Weight)
    requires i < |tasks|
    ensures w(i, tasks[i]) <= Total(tasks, w)
  {
    var n := |tasks| - 1;
    if i < n {
      TotalAtLeast(tasks[..n], i, w);
    }
  }

  /** A sum that is not zero has a term that is not zero. */
  lemma {:induction false} TotalPositive(tasks: seq<Phase>, w: Weight) returns (i: nat)
    requires Total(tasks, w) > 0
    ensures i < |tasks| && w(i, tasks[i]) > 0
  {
    var n := |tasks| - 1;
    if w(n, tasks[n]) > 0 {
      i := n;
    } else {
      i := TotalPositive(tasks[..n], w);
    }
  }

  lemma {:induction false} TotalMonotone(tasks: seq<Phase>, w: Weight, v: Weight, factor: nat)
    requires forall i, p :: factor * w(i, p) <= v(i, p)
    ensures factor * Total(tasks, w) <= Total(tasks, v)
  {
    if tasks != [] {
      TotalMonotone(tasks[..|tasks| - 1], w, v, factor);
    }
  }

  /** Counts tasks that have not given back their slot. */
  function InFlightWeight(): Weight {
    (i: nat, p: Phase) => if p == Done then 0 else 1
  }

  function ActiveWeight(): Weight {
    (i: nat, p: Phase) => if p == Processing || p == Committing || p == Finishing then 1 else 0
  }

  /** What task `i` has reserved of the memory budget. */
  function BytesHeld(files: seq<nat>, i: nat, p: Phase): nat {
    if p == Done then 0 else if i < |files| then Estimate(files[i]) else 1024
  }

  function BytesWeight(files: seq<nat>): Weight {
    (i: nat, p: Phase) => BytesHeld(files, i, p)
  }

  function OutcomeWeight(): Weight {
    (i: nat, p: Phase) => if p == Created || p == Processing then 0 else 1
  }

  function InFlight(tasks: seq<Phase>): nat { Total(tasks, InFlightWeight()) }

  // ----- the invariant

  predicate HasFile(p: Producer) {
    p in {Checking, AwaitingSlot, AwaitingMemory, Parked, Notified}
  }

  predicate HasSlot(p: Producer) {
    p == AwaitingMemory || p == Parked || p == Notified
  }

  /** What the reserved bytes, the permits and the counters mean. */
  ghost predicate Accounts(files: seq<nat>, cfg: Config, s: State) {
    && s.bytes == Total(s.tasks, BytesWeight(files))
    && s.permits + InFlight(s.tasks) + (if HasSlot(s.producer) then 1 else 0) == cfg.maxConcurrent
    && s.active == Total(s.tasks, ActiveWeight())
    && s.succeeded + s.failed == Total(s.tasks, OutcomeWeight())
    && s.active <= s.highWater <= cfg.maxConcurrent
    && (s.bytes <= cfg.maxBytes || InFlight(s.tasks) == 1)
  }

  function CommitEvery(cfg: Config): nat {
    if cfg.commitInterval == 0 then 1 else cfg.commitInterval
  }

  /** How many periodic commits the successes have triggered. */
  ghost predicate CommitsCounted(cfg: Config, s: State) {
    s.commits == s.succeeded / CommitEvery(cfg) && s.sinceCommit == s.succeeded % CommitEvery(cfg)
  }

  /** A parked producer is still refused by the budget, or a notification is on its way. */
  ghost predicate NoLostWakeUp(files: seq<nat>, cfg: Config, s: State) {
    s.producer == Parked ==>
      s.notifies > 0 || (|s.tasks| < |files| && !Admits(s.bytes, Estimate(files[|s.tasks|]), cfg.maxBytes))
  }

  ghost predicate Ordered(files: seq<nat>, s: State) {
    && |s.tasks| <= |files|
    && (HasFile(s.producer) ==> |s.tasks| < |files|)
    && (s.producer == Committed || s.producer == Finished ==> AllDone(s.tasks))
    && (s.producer in {Draining, Committed, Finished} && !s.cancelled && !s.listingFailed ==> |s.tasks| == |files|)
  }

  ghost predicate Inv(files: seq<nat>, cfg: Config, s: State) {
    && Accounts(files, cfg, s) && CommitsCounted(cfg, s) && NoLostWakeUp(files, cfg, s) && Ordered(files, s)
  }

  lemma DivStep(k: nat, e: nat)
    requires e > 0
    ensures (k + 1) / e == (if k % e + 1 == e then k / e + 1 else k / e)
    ensures (k + 1) % e == (if k % e + 1 == e then 0 else k % e + 1)
  {
    var q, r := k / e, k % e;
    assert k + 1 == q * e + (r + 1);
    if r + 1 == e {
      assert k + 1 == (q + 1) * e + 0;
      DivUnique(k + 1, e, q + 1, 0);
    } else {
      DivUnique(k + 1, e, q, r + 1);
    }
  }

  lemma DivUnique(n: nat, e: nat, q: nat, r: nat)
    requires e > 0 && n == q * e + r && r < e
    ensures n / e == q && n % e == r
  {
    var d := n / e - q;
    assert d * e == r - n % e;
    MultipleIsFar(d, e);
  }

  lemma MultipleIsFar(d: int, e: nat)
    ensures d > 0 ==> d * e >= e
    ensures d < 0 ==> d * e <= -(e as int)
  {
  }

  lemma UpdateTotals(files: seq<nat>, tasks: seq<Phase>, i: nat, phase: Phase)
    requires i < |tasks|
    ensures var t := tasks[i := phase]; var p := tasks[i];
            && InFlight(t) + InFlightWeight()(i, p) == InFlight(tasks) + InFlightWeight()(i, phase)
            && Total(t, ActiveWeight()) + ActiveWeight()(i, p) == Total(tasks, ActiveWeight()) + ActiveWeight()(i, phase)
            && Total(t, BytesWeight(files)) + BytesWeight(files)(i, p) ==
               Total(tasks, BytesWeight(files)) + BytesWeight(files)(i, phase)
            && Total(t, OutcomeWeight()) + OutcomeWeight()(i, p) == Total(tasks, OutcomeWeight()) + OutcomeWeight()(i, phase)
  {
    TotalUpdate(tasks, i, phase, InFlightWeight());
    TotalUpdate(tasks, i, phase, ActiveWeight());
    TotalUpdate(tasks, i, phase, BytesWeight(files));
    TotalUpdate(tasks, i, phase, OutcomeWeight());
  }

  lemma AppendTotals(files: seq<nat>, tasks: seq<Phase>)
    requires |tasks| < |files|
    ensures var t := tasks + [Created];
            && InFlight(t) == InFlight(tasks) + 1
            && Total(t, ActiveWeight()) == Total(tasks, ActiveWeight())
            && Total(t, BytesWeight(files)) == Total(tasks, BytesWeight(files)) + Estimate(files[|tasks|])
            && Total(t, OutcomeWeight()) == Total(tasks, OutcomeWeight())
  {
    TotalAppend(tasks, Created, InFlightWeight());
    TotalAppend(tasks, Created, ActiveWeight());
    TotalAppend(tasks, Created, BytesWeight(files));
    TotalAppend(tasks, Created, OutcomeWeight());
  }

  /** Active tasks are in flight, and every task in flight holds at least 1024 bytes. */
  lemma TotalsRelate(files: seq<nat>, tasks: seq<Phase>)
    ensures Total(tasks, ActiveWeight()) <= InFlight(tasks)
    ensures 1024 * InFlight(tasks) <= Total(tasks, BytesWeight(files))
    ensures InFlight(tasks) == 0 ==> Total(tasks, BytesWeight(files)) == 0
  {
    if Total(tasks, BytesWeight(files)) > 0 {
      var i := TotalPositive(tasks, BytesWeight(files));
      TotalAtLeast(tasks, i, InFlightWeight());
    }
    TotalMonotone(tasks, ActiveWeight(), InFlightWeight(), 1);
    TotalMonotone(tasks, InFlightWeight(), BytesWeight(files), 1024);
  }

  lemma InitInv(files: seq<nat>, cfg: Config)
    ensures Inv(files, cfg, Init(cfg))
  {
  }

  predicate ByTask(a: Action) {
    a.Start? || a.Succeed? || a.Fail? || a.CommitEnds? || a.Decrement? || a.Release?
  }

  lemma ProducerKeepsAccounts(files: seq<nat>, cfg: Config, s: State, a: Action)
    requires Accounts(files, cfg, s) && Ordered(files, s) && Step(files, cfg, s, a).Some? && !ByTask(a)
    ensures Accounts(files, cfg, Step(files, cfg, s, a).value)
  {
    hide Total, CommitTick, AllDone;
    if a.TestMemory? {
      TotalsRelate(files, s.tasks);
      AppendTotals(files, s.tasks);
    }
  }

  /** What a task step does to the sums is what it does to the counters. */
  lemma TaskKeepsSums(files: seq<nat>, cfg: Config, s: State, a: Action)
    requires Accounts(files, cfg, s) && Ordered(files, s) && Step(files, cfg, s, a).Some? && ByTask(a)
    ensures var t := Step(files, cfg, s, a).value;
            && t.bytes == Total(t.tasks, BytesWeight(files)) && t.active == Total(t.tasks, ActiveWeight())
            && t.permits + InFlight(t.tasks) == s.permits + InFlight(s.tasks)
            && t.succeeded + t.failed == Total(t.tasks, OutcomeWeight())
            && (if a.Release? then InFlight(t.tasks) == InFlight(s.tasks) - 1 && t.bytes < s.bytes
                else InFlight(t.tasks) == InFlight(s.tasks) && t.bytes == s.bytes)
            && t.producer == s.producer
  {
    hide Total, CommitTick, AllDone, Estimate;
    var t := Step(files, cfg, s, a).value;
    UpdateTotals(files, s.tasks, a.i, t.tasks[a.i]);
    SizesPositive(files, a.i);
  }

  lemma SizesPositive(files: seq<nat>, i: nat)
    ensures i < |files| ==> Estimate(files[i]) > 0
  {
  }

  lemma StepKeepsAccounts(files: seq<nat>, cfg: Config, s: State, a: Action)
    requires Accounts(files, cfg, s) && Ordered(files, s) && Step(files, cfg, s, a).Some?
    ensures Accounts(files, cfg, Step(files, cfg, s, a).value)
  {
    hide Total, CommitTick, AllDone, Admits;
    if ByTask(a) {
      var t := Step(files, cfg, s, a).value;
      TaskKeepsSums(files, cfg, s, a);
      TotalsRelate(files, t.tasks);
    } else {
      ProducerKeepsAccounts(files, cfg, s, a);
    }
  }

  lemma StepKeepsCommits(files: seq<nat>, cfg: Config, s: State, a: Action)
    requires CommitsCounted(cfg, s) && Step(files, cfg, s, a).Some?
    ensures CommitsCounted(cfg, Step(files, cfg, s, a).value)
  {
    if a.Succeed? {
      DivStep(s.succeeded, CommitEvery(cfg));
    }
  }

  /** In particular, a release that makes room schedules the notification before anything else. */
  lemma StepKeepsWakeUp(files: seq<nat>, cfg: Config, s: State, a: Action)
    requires NoLostWakeUp(files, cfg, s) && Step(files, cfg, s, a).Some?
    ensures NoLostWakeUp(files, cfg, Step(files, cfg, s, a).value)
  {
  }

  lemma StepKeepsOrder(files: seq<nat>, cfg: Config, s: State, a: Action)
    requires Ordered(files, s) && Step(files, cfg, s, a).Some?
    ensures Ordered(files, Step(files, cfg, s, a).value)
  {
  }

  /** Every step of every coroutine keeps the invariant. */
  lemma StepKeepsInv(files: seq<nat>, cfg: Config, s: State, a: Action)
    requires Inv(files, cfg, s) && Step(files, cfg, s, a).Some?
    ensures Inv(files, cfg, Step(files, cfg, s, a).value)
  {
    hide *;
    assert Accounts(files, cfg, s) && CommitsCounted(cfg, s) && NoLostWakeUp(files, cfg, s) && Ordered(files, s) by {
      InvParts(files, cfg, s);
    }
    StepKeepsAccounts(files, cfg, s, a);
    StepKeepsCommits(files, cfg, s, a);
    StepKeepsWakeUp(files, cfg, s, a);
    StepKeepsOrder(files, cfg, s, a);
    InvParts(files, cfg, Step(files, cfg, s, a).value);
  }

  lemma InvParts(files: seq<nat>, cfg: Config, s: State)
    ensures Inv(files, cfg, s) <==>
            Accounts(files, cfg, s) && CommitsCounted(cfg, s) && NoLostWakeUp(files, cfg, s) && Ordered(files, s)
  {
  }

  // ----- every step makes progress, and only a clean end is stuck

  function ProducerWeight(p: Producer): nat {
    match p
    case Fetching => 9
    case Checking => 8
    case AwaitingSlot => 7
    case AwaitingMemory => 6
    case Notified => 5
    case Parked => 4
    case Draining => 3
    case Committed => 2
    case Finished => 1
  }

  function TaskWeight(): Weight {
    (i: nat, p: Phase) => match p
      case Created => 20
      case Processing => 18
      case Committing => 16
      case Finishing => 14
      case Decremented => 12
      case Done => 0
  }

  /** What is still to be done: no step leaves it as large as it was. */
  function ToDo(files: seq<nat>, s: State): nat
    requires |s.tasks| <= |files|
  {
    40 * (|files| - |s.tasks|) + ProducerWeight(s.producer) + Total(s.tasks, TaskWeight()) + 3 * s.notifies
    + (if s.cancelled then 0 else 1) + (if s.listingFailed then 0 else 1)
  }

  lemma StepDecreases(files: seq<nat>, cfg: Config, s: State, a: Action)
    requires Ordered(files, s) && Step(files, cfg, s, a).Some?
    ensures var t := Step(files, cfg, s, a).value; |t.tasks| <= |files| && ToDo(files, t) < ToDo(files, s)
  {
    hide Total, CommitTick, AllDone, Admits;
    var t := Step(files, cfg, s, a).value;
    if ByTask(a) {
      TotalUpdate(s.tasks, a.i, t.tasks[a.i], TaskWeight());
    } else if a.TestMemory? {
      TotalAppend(s.tasks, Created, TaskWeight());
    }
  }

  /** The next action of a task that is not done. */
  function TaskAction(i: nat, p: Phase): Action
    requires p != Done
  {
    match p
    case Created => Start(i)
    case Processing => Succeed(i)
    case Committing => CommitEnds(i, false)
    case Finishing => Decrement(i)
    case Decremented => Release(i)
  }

  /** The first task that is not done. */
  function FirstUndone(tasks: seq<Phase>): (i: nat)
    requires !AllDone(tasks)
    ensures i < |tasks| && tasks[i] != Done
  {
    if tasks[0] != Done then 0
    else
      assert !AllDone(tasks[1..]) by {
        var k :| 0 <= k < |tasks| && tasks[k] != Done;
        assert tasks[1..][k - 1] == tasks[k];
      }
      1 + FirstUndone(tasks[1..])
  }

  lemma NoneInFlight(tasks: seq<Phase>)
    requires AllDone(tasks)
    ensures InFlight(tasks) == 0
  {
    if InFlight(tasks) > 0 {
      var i := TotalPositive(tasks, InFlightWeight());
    }
  }

  /** What can be done next, a task first if the producer depends on it. */
  function NextAction(files: seq<nat>, s: State): Action {
    if s.producer in {AwaitingSlot, Parked, Draining} && !AllDone(s.tasks) then
      var i := FirstUndone(s.tasks);
      TaskAction(i, s.tasks[i])
    else
      match s.producer
      case Fetching =>
        if |s.tasks| == |files| then EndListing else if s.cancelled then StopCancelled else Take(false)
      case Checking => AnswerCheck(false)
      case AwaitingSlot => AcquireSlot
      case AwaitingMemory => TestMemory
      case Notified => TestMemory
      case Parked => Notify
      case Draining => Gathered
      case Committed => FinalCommitEnds
      case Finished => Notify
  }

  /**
    No deadlock: until the run has finished, some coroutine can take a step, unless there are no permits
    at all and the producer waits for one.
   */
  lemma CanStep(files: seq<nat>, cfg: Config, s: State)
    requires Inv(files, cfg, s) && s.producer != Finished
    requires cfg.maxConcurrent > 0 || s.producer != AwaitingSlot
    ensures Step(files, cfg, s, NextAction(files, s)).Some?
  {
    hide CommitsCounted, Total, FirstUndone;
    if AllDone(s.tasks) {
      NoneInFlight(s.tasks);
      TotalsRelate(files, s.tasks);
    }
  }

  /** A run is stuck before its end if and only if no file may be processed at all and one is listed. */
  lemma StuckIff(files: seq<nat>, cfg: Config, s: State)
    requires Inv(files, cfg, s) && s.producer != Finished
    ensures (forall a :: Step(files, cfg, s, a).None?) <==>
            cfg.maxConcurrent == 0 && s.producer == AwaitingSlot && s.notifies == 0
  {
    if cfg.maxConcurrent > 0 || s.producer != AwaitingSlot {
      CanStep(files, cfg, s);
    } else {
      hide CommitsCounted, Total;
      TotalsRelate(files, s.tasks);
      if !AllDone(s.tasks) {
        var i := FirstUndone(s.tasks);
        TotalAtLeast(s.tasks, i, InFlightWeight());
      }
      assert s.notifies > 0 ==> Step(files, cfg, s, Notify).Some?;
    }
  }

  // ----- whole runs

  /** The state after a sequence of actions, if each was possible in its turn. */
  function Run(files: seq<nat>, cfg: Config, actions: seq<Action>): Option<State> {
    if actions == [] then Some(Init(cfg))
    else
      var before := Run(files, cfg, actions[..|actions| - 1]);
      if before.None? then None else Step(files, cfg, before.value, actions[|actions| - 1])
  }

  lemma {:induction false} RunKeepsInv(files: seq<nat>, cfg: Config, actions: seq<Action>)
    requires Run(files, cfg, actions).Some?
    ensures var s := Run(files, cfg, actions).value;
            Inv(files, cfg, s) && |actions| + ToDo(files, s) <= 40 * |files| + 11
  {
    hide Inv, Step;
    if actions == [] {
      InitInv(files, cfg);
    } else {
      var init := actions[..|actions| - 1];
      RunKeepsInv(files, cfg, init);
      var before := Run(files, cfg, init).value;
      var last := actions[|actions| - 1];
      StepKeepsInv(files, cfg, before, last);
      OrderedOf(files, cfg, before);
      StepDecreases(files, cfg, before, last);
    }
  }

  lemma OrderedOf(files: seq<nat>, cfg: Config, s: State)
    requires Inv(files, cfg, s)
    ensures Ordered(files, s)
  {
  }

  /** The budget in every reachable state, whatever the interleaving. */
  lemma BudgetInEveryRun(files: seq<nat>, cfg: Config, actions: seq<Action>)
    requires Run(files, cfg, actions).Some?
    ensures var s := Run(files, cfg, actions).value;
            && s.bytes == Total(s.tasks, BytesWeight(files))
            && (s.bytes <= cfg.maxBytes || InFlight(s.tasks) == 1)
            && s.highWater <= cfg.maxConcurrent && InFlight(s.tasks) <= cfg.maxConcurrent
            && s.commits == s.succeeded / CommitEvery(cfg)
  {
    RunKeepsInv(files, cfg, actions);
  }

  /** A release never clips the reserved bytes at zero. */
  lemma ReleaseIsExact(files: seq<nat>, cfg: Config, s: State, i: nat)
    requires Inv(files, cfg, s) && i < |files| && InPhase(s, i, Decremented)
    ensures Estimate(files[i]) <= s.bytes
    ensures Step(files, cfg, s, Release(i)).value.bytes == s.bytes - Estimate(files[i])
  {
    TotalAtLeast(s.tasks, i, BytesWeight(files));
  }

  /** In every reachable state where the producer is parked, something will wake it. */
  lemma ParkedWillWake(files: seq<nat>, cfg: Config, actions: seq<Action>)
    requires Run(files, cfg, actions).Some? && Run(files, cfg, actions).value.producer == Parked
    ensures var s := Run(files, cfg, actions).value; s.notifies > 0 || InFlight(s.tasks) > 0
  {
    RunKeepsInv(files, cfg, actions);
    var s := Run(files, cfg, actions).value;
    TotalsRelate(files, s.tasks);
  }

  /**
    Clean termination: a run takes at most 40 steps for each listed file and 10 more, and a run
    that cannot go on has finished with nothing reserved, every permit back, no task in flight
    and no notification left.  Unless it was cancelled or the listing failed, every listed file
    has been processed once.
   */
  lemma RunsEndCleanly(files: seq<nat>, cfg: Config, actions: seq<Action>)
    requires Run(files, cfg, actions).Some?
    requires cfg.maxConcurrent > 0 || Run(files, cfg, actions).value.producer != AwaitingSlot
    requires forall a :: Step(files, cfg, Run(files, cfg, actions).value, a).None?
    ensures |actions| <= 40 * |files| + 10
    ensures Clean(files, cfg, Run(files, cfg, actions).value)
  {
    RunKeepsInv(files, cfg, actions);
    var s := Run(files, cfg, actions).value;
    if s.producer != Finished {
      CanStep(files, cfg, s);
    }
    assert Step(files, cfg, s, Notify).None?;
    EndIsClean(files, cfg, s);
  }

  /** What the end of a run leaves behind. */
  ghost predicate Clean(files: seq<nat>, cfg: Config, s: State) {
    && s.producer == Finished && AllDone(s.tasks)
    && s.bytes == 0 && s.permits == cfg.maxConcurrent && s.active == 0 && s.notifies == 0
    && s.succeeded + s.failed == |s.tasks|
    && (!s.cancelled && !s.listingFailed ==> |s.tasks| == |files|)
  }

  lemma EndIsClean(files: seq<nat>, cfg: Config, s: State)
    requires Inv(files, cfg, s) && s.producer == Finished && s.notifies == 0
    ensures Clean(files, cfg, s)
  {
    NoneInFlight(s.tasks);
    TotalsRelate(files, s.tasks);
    OutcomesOfDone(s.tasks);
  }

  lemma {:induction false} OutcomesOfDone(tasks: seq<Phase>)
    requires AllDone(tasks)
    ensures Total(tasks, OutcomeWeight()) == |tasks|
  {
    if tasks != [] {
      OutcomesOfDone(tasks[..|tasks| - 1]);
    }
  }
}
