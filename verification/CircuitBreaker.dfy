/**
  The circuit breaker around calls to external services (`core/circuit_breaker.py`), and how its
  state is determined by what was recorded.  Times are the readings of a monotonic clock.
 */
module CircuitBreaker {
  import opened Results

  datatype Config = Config(failureThreshold: int, successThreshold: int, recoveryTimeout: real)

  datatype Phase = Closed | Open | HalfOpen

  /** What the breaker is told or asked. */
  datatype Event =
    | Succeeded(now: real)
    | Failed(now: real)
    | Asked(now: real)

  datatype State = State(
    phase: Phase,
    failureCount: nat,
    successCount: nat,
    lastFailure: Option<real>,
    successfulCalls: nat,
    failedCalls: nat,
    rejectedCalls: nat,
    stateChanges: nat)

  const Start: State := State(Closed, 0, 0, None, 0, 0, 0, 0)

  function MovedTo(s: State, phase: Phase): State {
    if s.phase == phase then s
    else
      var moved := s.(phase := phase, stateChanges := s.stateChanges + 1);
      match phase
      case Closed => moved.(failureCount := 0, successCount := 0)
      case HalfOpen => moved.(successCount := 0)
      case Open => moved
  }

  /** An open breaker is due for a test request once the timeout since its latest failure is over. */
  predicate Recovered(c: Config, s: State, now: real) {
    s.phase == Open && s.lastFailure.Some? && now - s.lastFailure.value >= c.recoveryTimeout
  }

  function Next(c: Config, s: State, event: Event): State {
    match event
    case Succeeded(_) =>
      var counted := s.(successfulCalls := s.successfulCalls + 1);
      (match s.phase
       case HalfOpen =>
         var one := counted.(successCount := s.successCount + 1);
         if one.successCount >= c.successThreshold then MovedTo(one, Closed) else one
       case Closed => counted.(failureCount := 0)
       case Open => counted)
    case Failed(now) =>
      var counted := s.(failedCalls := s.failedCalls + 1, lastFailure := Some(now));
      (match s.phase
       case HalfOpen => MovedTo(counted, Open)
       case Closed =>
         var one := counted.(failureCount := s.failureCount + 1);
         if one.failureCount >= c.failureThreshold then MovedTo(one, Open) else one
       case Open => counted)
    case Asked(now) =>
      var checked := if Recovered(c, s, now) then MovedTo(s, HalfOpen) else s;
      if checked.phase == Open then checked.(rejectedCalls := s.rejectedCalls + 1) else checked
  }

  class Breaker {
    const config: Config
    var phase: Phase
    var failureCount: nat
    var successCount: nat
    var lastFailure: Option<real>
    var successfulCalls: nat
    var failedCalls: nat
    var totalCalls: nat
    var rejectedCalls: nat
    var stateChanges: nat

    constructor (config: Config)
      ensures this.config == config && Snapshot() == Start && Counted()
    {
      this.config := config;
      phase, failureCount, successCount, lastFailure := Closed, 0, 0, None;
      successfulCalls, failedCalls, totalCalls, rejectedCalls, stateChanges := 0, 0, 0, 0, 0;
    }

    function Snapshot(): State
      reads this
    {
      State(phase, failureCount, successCount, lastFailure, successfulCalls, failedCalls, rejectedCalls, stateChanges)
    }

    ghost predicate Counted()
      reads this
    {
      totalCalls == successfulCalls + failedCalls
    }

    method TransitionTo(newPhase: Phase)
      modifies this`phase, this`stateChanges, this`failureCount, this`successCount
      ensures Snapshot() == MovedTo(old(Snapshot()), newPhase)
    {
      if phase != newPhase {
        phase := newPhase;
        stateChanges := stateChanges + 1;
        if newPhase == Closed {
          failureCount := 0;
          successCount := 0;
        } else if newPhase == HalfOpen {
          successCount := 0;
        }
      }
    }

    method RecordSuccess(now: real)
      requires Counted()
      modifies this
      ensures Counted() && Snapshot() == Next(config, old(Snapshot()), Succeeded(now))
    {
      totalCalls := totalCalls + 1;
      successfulCalls := successfulCalls + 1;
      if phase == HalfOpen {
        successCount := successCount + 1;
        if successCount >= config.successThreshold {
          TransitionTo(Closed);
        }
      } else if phase == Closed {
        failureCount := 0;
      }
    }

    method RecordFailure(now: real)
      requires Counted()
      modifies this
      ensures Counted() && Snapshot() == Next(config, old(Snapshot()), Failed(now))
    {
      totalCalls := totalCalls + 1;
      failedCalls := failedCalls + 1;
      lastFailure := Some(now);
      if phase == HalfOpen {
        TransitionTo(Open);
      } else if phase == Closed {
        failureCount := failureCount + 1;
        if failureCount >= config.failureThreshold {
          TransitionTo(Open);
        }
      }
    }

    method CheckState(now: real)
      modifies this`phase, this`stateChanges, this`failureCount, this`successCount
      ensures Snapshot() ==
              if Recovered(config, old(Snapshot()), now) then MovedTo(old(Snapshot()), HalfOpen) else old(Snapshot())
    {
      if phase == Open {
        if lastFailure.Some? {
          var elapsed := now - lastFailure.value;
          if elapsed >= config.recoveryTimeout {
            TransitionTo(HalfOpen);
          }
        }
      }
    }

    method AllowRequest(now: real) returns (allowed: bool)
      requires Counted()
      modifies this
      ensures Counted() && Snapshot() == Next(config, old(Snapshot()), Asked(now))
      ensures allowed == (phase != Open)
    {
      CheckState(now);
      if phase == Closed {
        return true;
      } else if phase == HalfOpen {
        return true;
      } else {
        rejectedCalls := rejectedCalls + 1;
        return false;
      }
    }
  }

  // ----- what a history of events determines

  function After(c: Config, history: seq<Event>): State {
    if history == [] then Start else Next(c, After(c, history[..|history| - 1]), history[|history| - 1])
  }

  function PhaseAfter(c: Config, history: seq<Event>): Phase {
    After(c, history).phase
  }

  /** The outcomes recorded since the breaker entered its present phase; true is a success. */
  ghost function Stint(c: Config, history: seq<Event>): seq<bool> {
    if history == [] then []
    else
      var init, last := history[..|history| - 1], history[|history| - 1];
      if PhaseAfter(c, history) != PhaseAfter(c, init) then []
      else if last.Asked? then Stint(c, init)
      else Stint(c, init) + [last.Succeeded?]
  }

  /** A threshold of zero or less acts as one. */
  function Effective(threshold: int): nat {
    if threshold < 1 then 1 else threshold
  }

  ghost predicate EndsInFailures(outcomes: seq<bool>, n: nat) {
    n <= |outcomes| && forall i :: |outcomes| - n <= i < |outcomes| ==> !outcomes[i]
  }

  /** The latest recorded failure, whatever the phase it was recorded in. */
  function LatestFailure(history: seq<Event>): Option<real> {
    if history == [] then None
    else if history[|history| - 1].Failed? then Some(history[|history| - 1].now)
    else LatestFailure(history[..|history| - 1])
  }

  lemma Snoc(c: Config, history: seq<Event>, event: Event)
    ensures (history + [event])[..|history|] == history
    ensures After(c, history + [event]) == Next(c, After(c, history), event)
    ensures Stint(c, history + [event]) ==
            if PhaseAfter(c, history + [event]) != PhaseAfter(c, history) then []
            else if event.Asked? then Stint(c, history)
            else Stint(c, history) + [event.Succeeded?]
    ensures LatestFailure(history + [event]) == if event.Failed? then Some(event.now) else LatestFailure(history)
  {
    hide Next;
    assert (history + [event])[..|history|] == history;
  }

  /** What the counters mean: the straight failures, or the successes, of the present stint. */
  ghost predicate Counts(c: Config, history: seq<Event>) {
    var s, stint := After(c, history), Stint(c, history);
    && s.lastFailure == LatestFailure(history)
    && (s.phase == Closed ==>
          && s.failureCount < Effective(c.failureThreshold)
          && EndsInFailures(stint, s.failureCount)
          && (s.failureCount < |stint| ==> stint[|stint| - 1 - s.failureCount]))
    && (s.phase == HalfOpen ==>
          && s.successCount == |stint| < Effective(c.successThreshold)
          && forall i :: 0 <= i < |stint| ==> stint[i])
    && (s.phase == Open ==> s.lastFailure.Some?)
  }

  lemma {:induction false} CountsHold(c: Config, history: seq<Event>)
    ensures Counts(c, history)
  {
    if history != [] {
      var init, last := history[..|history| - 1], history[|history| - 1];
      CountsHold(c, init);
      assert init + [last] == history;
      Snoc(c, init, last);
      hide After, Stint, LatestFailure;
    }
  }

  /**
    A closed breaker opens exactly on a failure that makes the last `failureThreshold` outcomes
    since it closed (or started) failures, all of them.
   */
  lemma OpensIff(c: Config, history: seq<Event>, event: Event)
    requires PhaseAfter(c, history) == Closed
    ensures PhaseAfter(c, history + [event]) == Open <==>
            event.Failed? && EndsInFailures(Stint(c, history) + [false], Effective(c.failureThreshold))
    ensures PhaseAfter(c, history + [event]) != HalfOpen
  {
    CountsHold(c, history);
    Snoc(c, history, event);
    hide After, Stint, LatestFailure;
    var s, stint, n := After(c, history), Stint(c, history), Effective(c.failureThreshold);
    var more := stint + [false];
    if s.failureCount + 1 >= n {
      assert EndsInFailures(more, n);
    } else if s.failureCount < |stint| {
      assert more[|more| - 2 - s.failureCount];
    }
  }

  /** A breaker under test closes exactly with its `successThreshold`-th outcome, all being successes. */
  lemma ClosesIff(c: Config, history: seq<Event>, event: Event)
    requires PhaseAfter(c, history) == HalfOpen
    ensures forall i :: 0 <= i < |Stint(c, history)| ==> Stint(c, history)[i]
    ensures PhaseAfter(c, history + [event]) == Closed <==>
            event.Succeeded? && |Stint(c, history)| + 1 == Effective(c.successThreshold)
    ensures PhaseAfter(c, history + [event]) == Open <==> event.Failed?
  {
    CountsHold(c, history);
    Snoc(c, history, event);
    hide After, Stint, LatestFailure;
  }

  /** An open breaker is left only by a question, asked when the latest failure is a timeout ago. */
  lemma LeavesOpenIff(c: Config, history: seq<Event>, event: Event)
    requires PhaseAfter(c, history) == Open
    ensures LatestFailure(history).Some?
    ensures PhaseAfter(c, history + [event]) ==
            if event.Asked? && event.now - LatestFailure(history).value >= c.recoveryTimeout then HalfOpen else Open
  {
    CountsHold(c, history);
    Snoc(c, history, event);
    hide After, Stint, LatestFailure;
  }

  /** A question is answered with no exactly when the breaker stays open. */
  ghost predicate Rejected(c: Config, history: seq<Event>, event: Event) {
    event.Asked? && PhaseAfter(c, history + [event]) == Open
  }

  lemma RejectedIff(c: Config, history: seq<Event>, now: real)
    ensures PhaseAfter(c, history) == Open ==> LatestFailure(history).Some?
    ensures Rejected(c, history, Asked(now)) <==>
            PhaseAfter(c, history) == Open && now - LatestFailure(history).value < c.recoveryTimeout
  {
    hide After, Stint, LatestFailure;
    match PhaseAfter(c, history)
    case Open => LeavesOpenIff(c, history, Asked(now));
    case Closed => OpensIff(c, history, Asked(now));
    case HalfOpen => ClosesIff(c, history, Asked(now));
  }

  ghost predicate Chronological(history: seq<Event>) {
    forall i, j :: 0 <= i < j < |history| ==> history[i].now <= history[j].now
  }

  lemma {:induction false} LatestFailureOccurs(history: seq<Event>)
    requires LatestFailure(history).Some?
    ensures exists i :: 0 <= i < |history| && history[i] == Failed(LatestFailure(history).value)
  {
    var init, last := history[..|history| - 1], history[|history| - 1];
    if last.Failed? {
      assert history[|history| - 1] == Failed(LatestFailure(history).value);
    } else {
      LatestFailureOccurs(init);
      var i :| 0 <= i < |init| && init[i] == Failed(LatestFailure(init).value);
      assert history[i] == Failed(LatestFailure(history).value);
    }
  }

  /**
    While open, everything within the timeout of the latest failure is turned away and leaves the
    breaker open, whatever late outcomes are recorded in between.
   */
  lemma {:induction false} OutageLasts(c: Config, history: seq<Event>, more: seq<Event>)
    requires PhaseAfter(c, history) == Open && Chronological(history + more) && LatestFailure(history).Some?
    requires forall i :: 0 <= i < |more| ==> more[i].now - LatestFailure(history).value < c.recoveryTimeout
    ensures PhaseAfter(c, history + more) == Open
    ensures LatestFailure(history + more).Some? && LatestFailure(history + more).value >= LatestFailure(history).value
    ensures forall i :: 0 <= i < |more| && more[i].Asked? ==> Rejected(c, history + more[..i], more[i])
  {
    if more == [] {
      assert history + more == history;
    } else {
      var init, last := more[..|more| - 1], more[|more| - 1];
      assert history + more == history + init + [last];
      assert Chronological(history + init) by {
        assert forall i :: 0 <= i < |history + init| ==> (history + init)[i] == (history + more)[i];
      }
      OutageLasts(c, history, init);
      LeavesOpenIff(c, history + init, last);
      Snoc(c, history + init, last);
      LatestFailureOccurs(history);
      hide After, LatestFailure, PhaseAfter;
      assert last.now >= LatestFailure(history).value by {
        var i :| 0 <= i < |history| && history[i] == Failed(LatestFailure(history).value);
        assert (history + more)[i] == history[i] && (history + more)[|history| + |more| - 1] == last;
      }
      forall i | 0 <= i < |more| && more[i].Asked?
        ensures Rejected(c, history + more[..i], more[i])
      {
        if i < |init| {
          assert init[..i] == more[..i] && init[i] == more[i];
        }
      }
    }
  }

  // ----- the statistics

  ghost function Total(history: seq<Event>, success: bool): nat {
    if history == [] then 0
    else
      var last := history[|history| - 1];
      Total(history[..|history| - 1], success) + if !last.Asked? && last.Succeeded? == success then 1 else 0
  }

  ghost function TotalRejected(c: Config, history: seq<Event>): nat {
    if history == [] then 0
    else
      var init, last := history[..|history| - 1], history[|history| - 1];
      TotalRejected(c, init) + if Rejected(c, init, last) then 1 else 0
  }

  ghost function PhaseChanges(c: Config, history: seq<Event>): nat {
    if history == [] then 0
    else
      var init := history[..|history| - 1];
      PhaseChanges(c, init) + if PhaseAfter(c, init) != PhaseAfter(c, history) then 1 else 0
  }

  lemma {:induction false} StatisticsAreExact(c: Config, history: seq<Event>)
    ensures var s := After(c, history);
            && s.successfulCalls == Total(history, true)
            && s.failedCalls == Total(history, false)
            && s.rejectedCalls == TotalRejected(c, history)
            && s.stateChanges == PhaseChanges(c, history)
  {
    if history != [] {
      var init, last := history[..|history| - 1], history[|history| - 1];
      StatisticsAreExact(c, init);
      assert init + [last] == history;
      Snoc(c, init, last);
      hide After, Stint, LatestFailure;
    }
  }
}
