/**
  Database-driven scheduling (`jobs/scheduler.py`): any number of instances poll the same schedule
  row, one at a time under its row lock, each with the time it read when its poll began.
 */
module Scheduler {
  import opened Results

  /** Seconds. */
  type Time = int

  /** A cron expression, as the times at which it occurs and the next and previous one of any time. */
  datatype Cron = Cron(occurs: Time -> bool, next: Time -> Time, previous: Time -> Time)

  /** `get_next` and `get_prev` are strict and skip no occurrence. */
  ghost predicate IsCron(c: Cron) {
    && (forall t :: t < c.next(t) && c.occurs(c.next(t)))
    && (forall t, o :: c.occurs(o) && t < o ==> c.next(t) <= o)
    && (forall t :: c.previous(t) < t && c.occurs(c.previous(t)))
    && (forall t, o :: c.occurs(o) && o < t ==> o <= c.previous(t))
  }

  const FIRST_RUN_WINDOW: Time := 7200

  /** `_is_schedule_due`; an invalid expression (None) is never due. */
  function IsDue(cron: Option<Cron>, lastRun: Option<Time>, now: Time): bool {
    match cron
    case None => false
    case Some(c) =>
      match lastRun
      case None => now - c.previous(now) <= FIRST_RUN_WINDOW
      case Some(last) => c.next(last) <= now
  }

  /** A schedule that is due has an occurrence since the last run, or within two hours for the first one. */
  lemma DueIff(c: Cron, lastRun: Option<Time>, now: Time)
    requires IsCron(c)
    ensures IsDue(Some(c), lastRun, now) <==>
            match lastRun
            case None => exists o :: c.occurs(o) && now - FIRST_RUN_WINDOW <= o < now
            case Some(last) => exists o :: c.occurs(o) && last < o <= now
  {
    match lastRun
    case None =>
      if IsDue(Some(c), lastRun, now) {
        assert c.occurs(c.previous(now)) && now - FIRST_RUN_WINDOW <= c.previous(now) < now;
      }
    case Some(last) =>
      if IsDue(Some(c), lastRun, now) {
        assert c.occurs(c.next(last)) && last < c.next(last) <= now;
      }
  }

  /** Whether a poll at `now` creates a job: not too soon, due, and with a usable target. */
  function Triggers(cron: Option<Cron>, minInterval: Time, lastRun: Option<Time>, now: Time, targetUsable: bool): bool {
    && !(lastRun.Some? && now - lastRun.value < minInterval)
    && IsDue(cron, lastRun, now)
    && targetUsable
  }

  class Schedule {
    const cron: Option<Cron>
    var lastRunAt: Option<Time>
    var nextRunAt: Option<Time>
    var jobs: seq<Time>

    constructor (cron: Option<Cron>)
      ensures this.cron == cron && lastRunAt == None && jobs == []
    {
      this.cron := cron;
      lastRunAt, nextRunAt, jobs := None, None, [];
    }

    /** `_maybe_trigger_schedule`: the created jobs are kept with the time they were created for. */
    method MaybeTrigger(minInterval: Time, now: Time, targetUsable: bool)
      modifies this
      ensures if Triggers(cron, minInterval, old(lastRunAt), now, targetUsable)
              then lastRunAt == Some(now) && jobs == old(jobs) + [now] &&
                   cron.Some? && nextRunAt == Some(cron.value.next(now))
              else lastRunAt == old(lastRunAt) && nextRunAt == old(nextRunAt) && jobs == old(jobs)
    {
      if lastRunAt.Some? && now - lastRunAt.value < minInterval {
        return;
      }
      if !IsDue(cron, lastRunAt, now) {
        return;
      }
      if !targetUsable {
        return;
      }
      jobs := jobs + [now];
      lastRunAt := Some(now);
      nextRunAt := Some(cron.value.next(now));
    }
  }

  // ----- polls of many instances

  /** One instance gets the row lock; its clock reading may be older than the last run. */
  datatype Poll = Poll(now: Time, targetUsable: bool)

  /** The times of the jobs created by a sequence of polls. */
  function Runs(c: Cron, minInterval: Time, lastRun: Option<Time>, polls: seq<Poll>): seq<Time>
    decreases |polls|
  {
    if polls == [] then []
    else if Triggers(Some(c), minInterval, lastRun, polls[0].now, polls[0].targetUsable)
    then [polls[0].now] + Runs(c, minInterval, Some(polls[0].now), polls[1..])
    else Runs(c, minInterval, lastRun, polls[1..])
  }

  /** Each run is due after the one before, later than it and at least `minInterval` apart. */
  ghost predicate Spaced(c: Cron, minInterval: Time, lastRun: Option<Time>, runs: seq<Time>)
    decreases |runs|
  {
    runs == [] ||
    (&& IsDue(Some(c), lastRun, runs[0])
     && (lastRun.Some? ==> runs[0] > lastRun.value && runs[0] >= lastRun.value + minInterval)
     && Spaced(c, minInterval, Some(runs[0]), runs[1..]))
  }

  /** Whatever the polls, and however stale their clocks, the runs are spaced. */
  lemma {:induction false} RunsAreSpaced(c: Cron, minInterval: Time, lastRun: Option<Time>, polls: seq<Poll>)
    requires IsCron(c)
    ensures Spaced(c, minInterval, lastRun, Runs(c, minInterval, lastRun, polls))
    decreases |polls|
  {
    if polls != [] {
      var now := polls[0].now;
      if Triggers(Some(c), minInterval, lastRun, now, polls[0].targetUsable) {
        RunsAreSpaced(c, minInterval, Some(now), polls[1..]);
        assert ([now] + Runs(c, minInterval, Some(now), polls[1..]))[1..] == Runs(c, minInterval, Some(now), polls[1..]);
      } else {
        RunsAreSpaced(c, minInterval, lastRun, polls[1..]);
      }
    }
  }

  /** The occurrence that each run uses up. */
  function Consumed(c: Cron, lastRun: Option<Time>, runs: seq<Time>): (occurrences: seq<Time>)
    ensures |occurrences| == |runs|
    decreases |runs|
  {
    if runs == [] then []
    else
      [if lastRun.Some? then c.next(lastRun.value) else c.previous(runs[0])] + Consumed(c, Some(runs[0]), runs[1..])
  }

  ghost predicate Rising(s: seq<Time>) {
    forall i, j :: 0 <= i < j < |s| ==> s[i] < s[j]
  }

  lemma RisingCons(x: Time, s: seq<Time>)
    requires Rising(s) && (s != [] ==> x < s[0])
    ensures Rising([x] + s)
  {
    forall j | 0 <= j < |s| ensures x < s[j] {
      assert j > 0 ==> s[0] < s[j];
    }
  }

  /** The runs rise, and the occurrences they use up rise with them. */
  lemma {:induction false} SpacedRises(c: Cron, minInterval: Time, lastRun: Option<Time>, runs: seq<Time>)
    requires IsCron(c) && Spaced(c, minInterval, lastRun, runs)
    ensures Rising(runs) && Rising(Consumed(c, lastRun, runs))
    ensures forall i :: 0 <= i < |runs| ==>
              c.occurs(Consumed(c, lastRun, runs)[i]) && Consumed(c, lastRun, runs)[i] <= runs[i]
    ensures runs != [] ==>
              if lastRun.Some? then lastRun.value < Consumed(c, lastRun, runs)[0] && lastRun.value < runs[0]
              else runs[0] - FIRST_RUN_WINDOW <= Consumed(c, lastRun, runs)[0]
    decreases |runs|
  {
    if runs != [] {
      hide Rising;
      var rest := runs[1..];
      SpacedRises(c, minInterval, Some(runs[0]), rest);
      RisingCons(runs[0], rest);
      assert runs == [runs[0]] + rest;
      RisingCons(Consumed(c, lastRun, runs)[0], Consumed(c, Some(runs[0]), rest));
      forall i | 0 <= i < |runs|
        ensures c.occurs(Consumed(c, lastRun, runs)[i]) && Consumed(c, lastRun, runs)[i] <= runs[i]
      {
        assert i > 0 ==> Consumed(c, lastRun, runs)[i] == Consumed(c, Some(runs[0]), rest)[i - 1];
      }
    } else {
      assert Rising(runs);
    }
  }

  /**
    Runs are injective into occurrences: under any polls, later runs use up later occurrences, none
    of which lies after its run, and the first run of a schedule uses one at most two hours old.
   */
  lemma RunsConsumeOccurrences(c: Cron, minInterval: Time, lastRun: Option<Time>, polls: seq<Poll>)
    requires IsCron(c)
    ensures var runs := Runs(c, minInterval, lastRun, polls); var used := Consumed(c, lastRun, runs);
            && Rising(runs) && Rising(used)
            && (forall i :: 0 <= i < |runs| ==> c.occurs(used[i]) && used[i] <= runs[i])
            && (runs != [] && lastRun.Some? ==> lastRun.value < used[0])
            && (runs != [] && lastRun.None? ==> runs[0] - FIRST_RUN_WINDOW <= used[0])
  {
    hide Rising, Spaced;
    RunsAreSpaced(c, minInterval, lastRun, polls);
    SpacedRises(c, minInterval, lastRun, Runs(c, minInterval, lastRun, polls));
  }

  /** Two runs of one schedule are at least `minInterval` apart. */
  lemma {:induction false} RunsFarApart(c: Cron, minInterval: Time, lastRun: Option<Time>, runs: seq<Time>, i: nat, j: nat)
    requires IsCron(c) && minInterval >= 0 && Spaced(c, minInterval, lastRun, runs) && i < j < |runs|
    ensures runs[j] - runs[i] >= minInterval
    decreases |runs|
  {
    if i > 0 {
      RunsFarApart(c, minInterval, Some(runs[0]), runs[1..], i - 1, j - 1);
    } else if j > 1 {
      RunsFarApart(c, minInterval, Some(runs[0]), runs[1..], 0, j - 1);
    }
  }

  function Occurrences(c: Cron, first: Time, last: Time): set<Time> {
    set o | first <= o <= last && c.occurs(o)
  }

  /** A strictly rising sequence within a finite set is no longer than the set is large. */
  lemma {:induction false} RisingFits(s: seq<Time>, within: set<Time>)
    requires Rising(s) && forall i :: 0 <= i < |s| ==> s[i] in within
    ensures |s| <= |within|
  {
    if s != [] {
      var n := |s| - 1;
      RisingFits(s[..n], within - {s[n]});
    }
  }

  lemma RisingWithin(s: seq<Time>, i: nat)
    requires Rising(s) && i < |s|
    ensures s[0] <= s[i] <= s[|s| - 1]
  {
  }

  /** A new schedule never runs more often than it occurs, counting from two hours before the first run. */
  lemma RunsNeverOutnumberOccurrences(c: Cron, minInterval: Time, polls: seq<Poll>)
    requires IsCron(c)
    ensures var runs := Runs(c, minInterval, None, polls);
            runs != [] ==> |runs| <= |Occurrences(c, runs[0] - FIRST_RUN_WINDOW, runs[|runs| - 1])|
  {
    hide Rising, Runs, Consumed, IsCron;
    var runs := Runs(c, minInterval, None, polls);
    var used := Consumed(c, None, runs);
    RunsConsumeOccurrences(c, minInterval, None, polls);
    if runs != [] {
      var within := Occurrences(c, runs[0] - FIRST_RUN_WINDOW, runs[|runs| - 1]);
      forall i | 0 <= i < |used| ensures used[i] in within {
        RisingWithin(runs, i);
        RisingWithin(used, i);
      }
      RisingFits(used, within);
    }
  }
}
