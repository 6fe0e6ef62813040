/**
  The objects of `jobs/pipeline.py` with the fields they update in place.  What one coroutine
  does to them between two suspensions is an action of `Pipeline`, and does exactly that.
 */
module PipelineObjects {
  import opened Results
  import opened Pipeline

  class MemoryBudgetSemaphore {
    const maxBytes: nat
    var currentBytes: nat

    constructor (maxBytes: nat)
      ensures this.maxBytes == maxBytes && currentBytes == 0
    {
      this.maxBytes := maxBytes;
      currentBytes := 0;
    }

    function AvailableBytes(): (available: nat)
      reads this
      ensures currentBytes + available >= maxBytes && (available > 0 ==> currentBytes + available == maxBytes)
    {
      if maxBytes < currentBytes then 0 else maxBytes - currentBytes
    }

    /** One turn of `wait_for` in `acquire`: the test and, if it holds, the reservation. */
    method TryAcquire(size: nat) returns (admitted: bool)
      modifies this
      ensures admitted == Admits(old(currentBytes), size, maxBytes)
      ensures currentBytes == if admitted then old(currentBytes) + size else old(currentBytes)
    {
      admitted := currentBytes + size <= maxBytes || currentBytes == 0;
      if admitted {
        currentBytes := currentBytes + size;
      }
    }

    method Release(size: nat)
      modifies this
      ensures currentBytes == if old(currentBytes) < size then 0 else old(currentBytes) - size
    {
      var left := currentBytes - size;
      currentBytes := if left < 0 then 0 else left;
    }
  }

  class PipelineContext {
    const commitInterval: nat
    var cancelled: bool
    var filesSinceCommit: nat
    var activeTasks: int
    var concurrencyHighWater: int
    var filesErrored: nat

    constructor (commitInterval: nat)
      ensures this.commitInterval == commitInterval && !cancelled && filesSinceCommit == 0
      ensures activeTasks == 0 && concurrencyHighWater == 0 && filesErrored == 0
    {
      this.commitInterval := commitInterval;
      cancelled := false;
      filesSinceCommit, activeTasks, concurrencyHighWater, filesErrored := 0, 0, 0, 0;
    }

    method IncrementActive() returns (active: int)
      modifies this`activeTasks, this`concurrencyHighWater
      ensures active == activeTasks == old(activeTasks) + 1
      ensures concurrencyHighWater == if active > old(concurrencyHighWater) then active else old(concurrencyHighWater)
    {
      activeTasks := activeTasks + 1;
      if activeTasks > concurrencyHighWater {
        concurrencyHighWater := activeTasks;
      }
      active := activeTasks;
    }

    method DecrementActive() returns (active: int)
      modifies this`activeTasks
      ensures active == activeTasks == old(activeTasks) - 1
    {
      activeTasks := activeTasks - 1;
      active := activeTasks;
    }

    method ShouldCommit() returns (due: bool)
      modifies this`filesSinceCommit
      ensures (filesSinceCommit, due) == CommitTick(old(filesSinceCommit), commitInterval)
    {
      filesSinceCommit := filesSinceCommit + 1;
      if filesSinceCommit >= commitInterval {
        filesSinceCommit := 0;
        return true;
      }
      return false;
    }
  }

  class FilePipeline {
    const files: seq<nat>
    const config: Config
    const budget: MemoryBudgetSemaphore
    const context: PipelineContext
    var producer: Producer
    var tasks: seq<Phase>
    var permits: nat
    var notifies: nat
    var succeeded: nat
    var failed: nat
    var commits: nat
    var listingFailed: bool

    constructor (config: Config, files: seq<nat>)
      ensures Valid() && this.config == config && this.files == files && Snapshot() == Init(config)
      ensures fresh(budget) && fresh(context)
    {
      this.files, this.config := files, config;
      budget := new MemoryBudgetSemaphore(config.maxBytes);
      context := new PipelineContext(config.commitInterval);
      producer, tasks, permits, notifies := Fetching, [], config.maxConcurrent, 0;
      succeeded, failed, commits, listingFailed := 0, 0, 0, false;
    }

    ghost predicate Valid() {
      budget.maxBytes == config.maxBytes && context.commitInterval == config.commitInterval
    }

    function Snapshot(): State
      reads this, budget, context
    {
      State(producer, tasks, permits, budget.currentBytes, notifies, context.activeTasks,
            context.concurrencyHighWater, context.filesSinceCommit, succeeded, failed, commits,
            context.filesErrored, context.cancelled, listingFailed)
    }

    /** One step of `run`: up to the next suspension. */
    method ProducerStep(a: Action)
      requires Valid() && Step(files, config, Snapshot(), a).Some? && !ByTask(a) && !a.Notify? && !a.Cancel?
      modifies this, budget, context
      ensures Snapshot() == Step(files, config, old(Snapshot()), a).value
    {
      hide Estimate, CommitTick;
      match a
      case Take(check) =>
        producer := if check then Checking else AwaitingSlot;
      case AnswerCheck(cancel) =>
        if cancel {
          context.cancelled := true;
          producer := Draining;
        } else {
          producer := AwaitingSlot;
        }
      case StopCancelled =>
        producer := Draining;
      case EndListing =>
        producer := Draining;
      case FailListing =>
        producer, listingFailed := Draining, true;
      case AcquireSlot =>
        producer, permits := AwaitingMemory, permits - 1;
      case TestMemory =>
        var admitted := budget.TryAcquire(Estimate(files[|tasks|]));
        if admitted {
          producer, tasks := Fetching, tasks + [Created];
        } else {
          producer := Parked;
        }
      case Gathered =>
        producer := Committed;
      case FinalCommitEnds =>
        producer := Finished;
    }

    /** One step of the `_run_one` of file `a.i`, before its `finally` block: up to the next suspension. */
    method TaskStep(a: Action)
      requires Valid() && Step(files, config, Snapshot(), a).Some? && ByTask(a) && !a.Decrement? && !a.Release?
      modifies this, budget, context
      ensures Snapshot() == Step(files, config, old(Snapshot()), a).value
    {
      hide Estimate, Admits;
      match a
      case Start(i) =>
        var active := context.IncrementActive();
        tasks := tasks[i := Processing];
      case Succeed(i) =>
        succeeded := succeeded + 1;
        var due := context.ShouldCommit();
        if due {
          commits := commits + 1;
        }
        tasks := tasks[i := if due then Committing else Finishing];
      case Fail(i) =>
        failed := failed + 1;
        context.filesErrored := context.filesErrored + 1;
        tasks := tasks[i := Finishing];
      case CommitEnds(i, raises) =>
        if raises {
          context.filesErrored := context.filesErrored + 1;
        }
        tasks := tasks[i := Finishing];
    }

    /** The steps of the `finally` block of `_run_one`. */
    method FinallyStep(a: Action)
      requires Valid() && Step(files, config, Snapshot(), a).Some? && (a.Decrement? || a.Release?)
      modifies this, budget, context
      ensures Snapshot() == Step(files, config, old(Snapshot()), a).value
    {
      hide Estimate, Admits, CommitTick;
      if a.Decrement? {
        var active := context.DecrementActive();
        tasks := tasks[a.i := Decremented];
      } else {
        budget.Release(Estimate(files[a.i]));
        notifies, permits, tasks := notifies + 1, permits + 1, tasks[a.i := Done];
      }
    }

    /** One step of one coroutine. */
    method Perform(a: Action)
      requires Valid() && Step(files, config, Snapshot(), a).Some?
      modifies this, budget, context
      ensures Snapshot() == Step(files, config, old(Snapshot()), a).value
    {
      if a.Notify? {
        // `_notify` wakes the producer if it is parked
        notifies := notifies - 1;
        if producer == Parked {
          producer := Notified;
        }
      } else if a.Cancel? {
        // the processing function sets the cancellation flag
        context.cancelled := true;
      } else if a.Decrement? || a.Release? {
        FinallyStep(a);
      } else if ByTask(a) {
        TaskStep(a);
      } else {
        ProducerStep(a);
      }
    }

    /**
      `run`, with the event loop's choices given by any schedule: whatever it asks for is done if it
      can be done, and otherwise something that can.  It ends, and ends clean.
     */
    method Drive(schedule: nat -> Action)
      requires Valid() && Inv(files, config, Snapshot()) && config.maxConcurrent > 0
      modifies this, budget, context
      ensures Inv(files, config, Snapshot()) && Clean(files, config, Snapshot())
    {
      var n := 0;
      while producer != Finished || notifies > 0
        invariant Valid() && Inv(files, config, Snapshot())
        decreases Measure()
      {
        var s := Snapshot();
        var a := schedule(n);
        if Step(files, config, s, a).None? {
          a := NextAction(files, s);
          SomethingCanBeDone(files, config, s);
        }
        hide Step, Inv, ToDo, NextAction;
        StepKeepsInv(files, config, s, a);
        OrderedOf(files, config, s);
        StepDecreases(files, config, s, a);
        Perform(a);
        n := n + 1;
      }
      EndIsClean(files, config, Snapshot());
    }

    ghost function Measure(): nat
      reads this, budget, context
    {
      if |tasks| <= |files| then ToDo(files, Snapshot()) else 0
    }
  }

  lemma SomethingCanBeDone(files: seq<nat>, cfg: Config, s: State)
    requires Inv(files, cfg, s) && cfg.maxConcurrent > 0 && (s.producer != Finished || s.notifies > 0)
    ensures Step(files, cfg, s, NextAction(files, s)).Some?
  {
    if s.producer != Finished {
      CanStep(files, cfg, s);
    }
  }
}
