/**
  The token bucket in front of the Graph API (`adapters/graph_client.py`, class `TokenBucket`):
  what rate it really enforces.  Times are the readings of a monotonic clock.
 */
module TokenBucket {
  /** The fields of the bucket; the lock makes each acquisition one step. */
  datatype State = State(rate: real, capacity: nat, tokens: real, lastUpdate: real)

  ghost predicate Valid(s: State) {
    s.rate > 0.0 && 0.0 <= s.tokens <= s.capacity as real
  }

  /** What flows in over some time. */
  function Inflow(elapsed: real, rate: real): real {
    elapsed * rate
  }

  function Refilled(s: State, now: real): real {
    var filled := s.tokens + Inflow(now - s.lastUpdate, s.rate);
    if filled < s.capacity as real then filled else s.capacity as real
  }

  function AfterAcquire(s: State, now: real, tokens: nat): State {
    var available := Refilled(s, now);
    s.(lastUpdate := now, tokens := if available >= tokens as real then available - tokens as real else 0.0)
  }

  /** The wait that `acquire` returns: zero for a grant. */
  function Wait(s: State, now: real, tokens: nat): real
    requires s.rate > 0.0
  {
    var available := Refilled(s, now);
    if available >= tokens as real then 0.0 else (tokens as real - available) / s.rate
  }

  predicate Granted(s: State, now: real, tokens: nat) {
    Refilled(s, now) >= tokens as real
  }

  class Bucket {
    const rate: real
    const capacity: nat
    var tokens: real
    var lastUpdate: real

    constructor (rate: real, capacity: nat, now: real)
      requires rate > 0.0
      ensures Snapshot() == State(rate, capacity, capacity as real, now)
    {
      this.rate, this.capacity := rate, capacity;
      tokens, lastUpdate := capacity as real, now;
    }

    function Snapshot(): State
      reads this
    {
      State(rate, capacity, tokens, lastUpdate)
    }

    method Acquire(tokens: nat, now: real) returns (wait: real)
      requires rate > 0.0
      modifies this
      ensures Snapshot() == AfterAcquire(old(Snapshot()), now, tokens)
      ensures wait == Wait(old(Snapshot()), now, tokens)
    {
      var elapsed := now - lastUpdate;
      lastUpdate := now;
      var filled := this.tokens + Inflow(elapsed, rate);
      this.tokens := if filled < capacity as real then filled else capacity as real;
      if this.tokens >= tokens as real {
        this.tokens := this.tokens - tokens as real;
        return 0.0;
      }
      var deficit := tokens as real - this.tokens;
      wait := deficit / rate;
      this.tokens := 0.0;
    }
  }

  // ----- any callers

  /** One acquisition by some caller. */
  datatype Call = Call(now: real, tokens: nat)

  /** Clock readings never go back. */
  ghost predicate Chronological(start: real, calls: seq<Call>) {
    && (forall i :: 0 <= i < |calls| ==> start <= calls[i].now)
    && (forall i, j :: 0 <= i < j < |calls| ==> calls[i].now <= calls[j].now)
  }

  function After(s: State, calls: seq<Call>): State {
    if calls == [] then s
    else AfterAcquire(After(s, calls[..|calls| - 1]), calls[|calls| - 1].now, calls[|calls| - 1].tokens)
  }

  /** The tokens handed out without a wait. */
  function GrantedTokens(s: State, calls: seq<Call>): nat {
    if calls == [] then 0
    else
      var init, last := calls[..|calls| - 1], calls[|calls| - 1];
      GrantedTokens(s, init) + if Granted(After(s, init), last.now, last.tokens) then last.tokens else 0
  }

  lemma InflowNonNegative(elapsed: real, rate: real)
    requires elapsed >= 0.0 && rate >= 0.0
    ensures Inflow(elapsed, rate) >= 0.0
  {
  }

  lemma InflowAdds(a: real, b: real, rate: real)
    ensures Inflow(a + b, rate) == Inflow(a, rate) + Inflow(b, rate)
  {
  }

  lemma InflowGrows(a: real, b: real, rate: real)
    requires a <= b && rate >= 0.0
    ensures Inflow(a, rate) <= Inflow(b, rate)
  {
    InflowNonNegative(b - a, rate);
    InflowAdds(a, b - a, rate);
  }

  /** One acquisition keeps the bucket between empty and full, and hands out no more than it holds. */
  lemma AcquireAccounts(s: State, now: real, tokens: nat)
    requires Valid(s) && s.lastUpdate <= now
    ensures Valid(AfterAcquire(s, now, tokens))
    ensures AfterAcquire(s, now, tokens).tokens + (if Granted(s, now, tokens) then tokens as real else 0.0) <= Refilled(s, now)
    ensures Refilled(s, now) <= s.capacity as real && Refilled(s, now) <= s.tokens + Inflow(now - s.lastUpdate, s.rate)
    ensures Refilled(s, now) >= 0.0
  {
    hide Inflow;
    InflowNonNegative(now - s.lastUpdate, s.rate);
  }

  /** In every interleaving: the level stays in range, and so do the grants of the whole run. */
  lemma {:induction false} LevelInRange(s: State, calls: seq<Call>)
    requires Valid(s) && Chronological(s.lastUpdate, calls)
    ensures var t := After(s, calls);
            && Valid(t) && t.rate == s.rate && t.capacity == s.capacity
            && t.lastUpdate == (if calls == [] then s.lastUpdate else calls[|calls| - 1].now)
  {
    if calls != [] {
      var init, last := calls[..|calls| - 1], calls[|calls| - 1];
      LevelInRange(s, init);
      AcquireAccounts(After(s, init), last.now, last.tokens);
    }
  }

  /**
    The rate bound: in any window of calls by any callers, the tokens granted without a wait are at
    most the capacity and what flows in between the first and the last call of the window.
   */
  lemma {:induction false} GrantsAreBounded(s: State, calls: seq<Call>)
    requires Valid(s) && Chronological(s.lastUpdate, calls) && calls != []
    ensures GrantedTokens(s, calls) as real + After(s, calls).tokens
         <= s.capacity as real + Inflow(calls[|calls| - 1].now - calls[0].now, s.rate)
  {
    hide Inflow, Refilled, Granted, AfterAcquire;
    var init, last := calls[..|calls| - 1], calls[|calls| - 1];
    LevelInRange(s, init);
    AcquireAccounts(After(s, init), last.now, last.tokens);
    if init != [] {
      GrantsAreBounded(s, init);
      InflowAdds(last.now - init[|init| - 1].now, init[|init| - 1].now - calls[0].now, s.rate);
    } else {
      InflowNonNegative(0.0, s.rate);
      assert GrantedTokens(s, init) == 0 && last.now - calls[0].now == 0.0;
    }
  }

  // ----- one caller that sleeps

  /** A call for one token, and the sleep after it. */
  datatype Nap = Nap(at: real, sleep: real)

  function AfterNaps(s: State, naps: seq<Nap>): State {
    if naps == [] then s else AfterAcquire(AfterNaps(s, naps[..|naps| - 1]), naps[|naps| - 1].at, 1)
  }

  function Completed(nap: Nap): real {
    nap.at + nap.sleep
  }

  /** The caller sleeps at least the returned wait and calls again only when it has woken up. */
  ghost predicate Sleeps(s: State, naps: seq<Nap>)
    requires s.rate > 0.0
  {
    naps == [] ||
    (var init, last := naps[..|naps| - 1], naps[|naps| - 1];
     && Sleeps(s, init)
     && last.at >= (if init == [] then s.lastUpdate else Completed(init[|init| - 1]))
     && AfterNaps(s, init).rate == s.rate
     && last.sleep >= Wait(AfterNaps(s, init), last.at, 1))
  }

  lemma QuotientTimes(a: real, b: real)
    requires b > 0.0
    ensures a / b * b == a && (a >= 0.0 ==> a / b >= 0.0)
  {
  }

  /** After a nap: what one acquisition costs is covered by the level and by the sleep. */
  lemma NapAccounts(s: State, nap: Nap)
    requires Valid(s) && s.lastUpdate <= nap.at && nap.sleep >= Wait(s, nap.at, 1)
    ensures Valid(AfterAcquire(s, nap.at, 1)) && nap.sleep >= 0.0
    ensures 1.0 + AfterAcquire(s, nap.at, 1).tokens <= Refilled(s, nap.at) + Inflow(nap.sleep, s.rate)
  {
    AcquireAccounts(s, nap.at, 1);
    hide *;
    var spare := nap.sleep - Wait(s, nap.at, 1);
    InflowNonNegative(spare, s.rate);
    InflowAdds(spare, Wait(s, nap.at, 1), s.rate);
  }

  lemma {:induction false} NapsInRange(s: State, naps: seq<Nap>)
    requires Valid(s) && Sleeps(s, naps)
    ensures var t := AfterNaps(s, naps);
            && Valid(t) && t.rate == s.rate && t.capacity == s.capacity
            && t.lastUpdate == (if naps == [] then s.lastUpdate else naps[|naps| - 1].at)
    ensures naps != [] ==> naps[|naps| - 1].sleep >= 0.0 && naps[0].at <= naps[|naps| - 1].at
  {
    if naps != [] {
      var init, last := naps[..|naps| - 1], naps[|naps| - 1];
      NapsInRange(s, init);
      NapAccounts(AfterNaps(s, init), last);
    }
  }

  /**
    One caller that takes single tokens and sleeps at least each returned wait completes at most
    the capacity and twice what flows in during the time it takes.
   */
  lemma {:induction false} SleeperIsBounded(s: State, naps: seq<Nap>)
    requires Valid(s) && Sleeps(s, naps) && naps != []
    ensures var first, last := naps[0], naps[|naps| - 1];
            && first.at <= last.at <= Completed(last)
            && |naps| as real + AfterNaps(s, naps).tokens
               <= s.capacity as real + Inflow(last.at - first.at, s.rate) + Inflow(Completed(last) - first.at, s.rate)
  {
    hide Inflow, Refilled, Wait, AfterAcquire;
    var init, last := naps[..|naps| - 1], naps[|naps| - 1];
    NapsInRange(s, init);
    NapsInRange(s, naps);
    var before := AfterNaps(s, init);
    NapAccounts(before, last);
    AcquireAccounts(before, last.at, 1);
    if init == [] {
      InflowNonNegative(0.0, s.rate);
      assert Completed(last) - naps[0].at == last.sleep && last.at - naps[0].at == 0.0;
    } else {
      var prev, first := init[|init| - 1], naps[0];
      SleeperIsBounded(s, init);
      InflowAdds(last.at - prev.at, prev.at - first.at, s.rate);
      var idle := last.at - Completed(prev);
      InflowNonNegative(idle, s.rate);
      InflowAdds(idle, Completed(prev) - first.at, s.rate);
      InflowAdds(last.sleep, last.at - first.at, s.rate);
      assert Completed(last) - first.at == last.sleep + (last.at - first.at);
    }
  }

  lemma SleeperWithinTime(s: State, naps: seq<Nap>, duration: real)
    requires Valid(s) && Sleeps(s, naps) && naps != [] && Completed(naps[|naps| - 1]) - naps[0].at <= duration
    ensures |naps| as real <= s.capacity as real + 2.0 * Inflow(duration, s.rate)
  {
    SleeperIsBounded(s, naps);
    NapsInRange(s, naps);
    hide *;
    var first, last := naps[0], naps[|naps| - 1];
    InflowGrows(last.at - first.at, duration, s.rate);
    InflowGrows(Completed(last) - first.at, duration, s.rate);
  }

  // ----- the bound is reached

  /** At a rate of one: a grant at each full second and, right after it, a call that waits a second. */
  function Greedy(n: nat): seq<Nap> {
    if n == 0 then [Nap(0.0, 0.0)]
    else Greedy(n - 1) + [Nap((n - 1) as real, 1.0), Nap(n as real, 0.0)]
  }

  /** An empty bucket at its last reading makes the caller wait a second; a second later it grants. */
  lemma EmptyThenFull(at: real)
    ensures var empty := State(1.0, 1, 0.0, at);
            && Wait(empty, at, 1) == 1.0 && AfterAcquire(empty, at, 1) == empty
            && Wait(empty, at + 1.0, 1) == 0.0 && AfterAcquire(empty, at + 1.0, 1) == State(1.0, 1, 0.0, at + 1.0)
  {
    var empty := State(1.0, 1, 0.0, at);
    assert Inflow(0.0, 1.0) == 0.0 && Inflow(1.0, 1.0) == 1.0;
    assert Refilled(empty, at) == 0.0 && Refilled(empty, at + 1.0) == 1.0;
  }

  lemma OneMoreNap(s: State, naps: seq<Nap>, nap: Nap)
    requires s.rate > 0.0 && Sleeps(s, naps) && AfterNaps(s, naps).rate == s.rate
    requires nap.at >= (if naps == [] then s.lastUpdate else Completed(naps[|naps| - 1]))
    requires nap.sleep >= Wait(AfterNaps(s, naps), nap.at, 1)
    ensures Sleeps(s, naps + [nap])
    ensures AfterNaps(s, naps + [nap]) == AfterAcquire(AfterNaps(s, naps), nap.at, 1)
  {
    hide AfterAcquire, Wait, Completed;
    var more := naps + [nap];
    assert more[..|more| - 1] == naps && more[|more| - 1] == nap;
  }

  /**
    The factor two is real: with capacity 1 and rate 1, a caller that sleeps exactly the returned
    waits completes 2n + 1 acquisitions within n seconds, for every n.
   */
  lemma {:induction false} TwiceTheRateIsReached(n: nat)
    ensures var s, naps := State(1.0, 1, 1.0, 0.0), Greedy(n);
            && |naps| == 2 * n + 1 && Sleeps(s, naps)
            && naps[0].at == 0.0 && Completed(naps[|naps| - 1]) == n as real
            && AfterNaps(s, naps) == State(1.0, 1, 0.0, n as real)
  {
    var s := State(1.0, 1, 1.0, 0.0);
    if n == 0 {
      assert Inflow(0.0, 1.0) == 0.0;
      OneMoreNap(s, [], Nap(0.0, 0.0));
      assert [] + [Nap(0.0, 0.0)] == Greedy(0);
    } else {
      TwiceTheRateIsReached(n - 1);
      EmptyThenFull((n - 1) as real);
      hide Wait, AfterAcquire, AfterNaps, Sleeps;
      var before, waiting, granted := Greedy(n - 1), Nap((n - 1) as real, 1.0), Nap(n as real, 0.0);
      OneMoreNap(s, before, waiting);
      OneMoreNap(s, before + [waiting], granted);
      assert before + [waiting] + [granted] == Greedy(n);
    }
  }
}
