/**
  Which keys the partitions of a fan-out cover: the two ways the coordinator computes ranges, and
  how often each key of the bucket is listed.
 */
module FanoutCoverage {
  import opened Results
  import opened Ordering
  import opened Fanout

  // ----- chains of ranges

  /** Consecutive ranges: each ends where the next one starts, and the first has no start. */
  ghost predicate Chain(specs: seq<PartitionSpec>) {
    && specs != [] && specs[0].startAfter == None
    && (forall i :: 0 < i < |specs| ==> specs[i].startAfter.Some? && specs[i].startAfter.value != "")
    && (forall i, j :: 0 <= i && j == i + 1 && j < |specs| ==> specs[i].endBefore == specs[j].startAfter)
    && specs[|specs| - 1].endBefore != Some("")
  }

  function Start(specs: seq<PartitionSpec>, i: nat): string
    requires 0 < i < |specs|
  {
    if specs[i].startAfter.Some? then specs[i].startAfter.value else ""
  }

  /** The interior boundaries are in order. */
  ghost predicate InOrder(specs: seq<PartitionSpec>)
    requires specs != []
  {
    && (forall i, j :: 0 < i < j < |specs| ==> LessEqual(Start(specs, i), Start(specs, j)))
    && (var end := specs[|specs| - 1].endBefore;
        end.Some? ==> forall i :: 0 < i < |specs| ==> LessEqual(Start(specs, i), end.value))
  }

  /** The key lies past the start of the range, in the sense of the adapter. */
  predicate Past(specs: seq<PartitionSpec>, inclusive: bool, i: nat, key: string)
    requires i <= |specs| && specs != []
  {
    if i == 0 then true
    else if i == |specs| then
      match specs[|specs| - 1].endBefore case None => false case Some(end) => !Less(key, end)
    else Less(Start(specs, i), key) || (inclusive && Start(specs, i) == key)
  }

  predicate IsBoundary(specs: seq<PartitionSpec>, key: string) {
    exists i :: 0 < i < |specs| && Start(specs, i) == key
  }

  /** Of two positions, the key past the first and not past the second, some range in between covers it. */
  lemma {:induction false} SomeRangeCovers(specs: seq<PartitionSpec>, inclusive: bool, lo: nat, hi: nat, key: string)
    returns (i: nat)
    requires Chain(specs) && lo < hi <= |specs| && !IsBoundary(specs, key)
    requires Past(specs, inclusive, lo, key) && !Past(specs, inclusive, hi, key)
    ensures lo <= i < hi && Covers(specs[i], inclusive, key)
    decreases hi
  {
    if lo + 1 == hi || Past(specs, inclusive, hi - 1, key) {
      i := hi - 1;
      if hi < |specs| {
        Trichotomy(Start(specs, hi), key);
        assert Start(specs, hi) != key;
      }
    } else {
      i := SomeRangeCovers(specs, inclusive, lo, hi - 1, key);
    }
  }

  /** Whatever the order of the boundaries, every other key is listed by some worker. */
  lemma EveryKeyCovered(specs: seq<PartitionSpec>, inclusive: bool, key: string) returns (i: nat)
    requires Chain(specs) && specs[|specs| - 1].endBefore == None && !IsBoundary(specs, key)
    ensures i < |specs| && Covers(specs[i], inclusive, key)
  {
    i := SomeRangeCovers(specs, inclusive, 0, |specs|, key);
  }

  /**
    A key that is no boundary is listed by two workers if and only if two boundaries that are out
    of order have it between them.
   */
  lemma ListedTwiceIff(specs: seq<PartitionSpec>, inclusive: bool, key: string)
    requires Chain(specs) && specs[|specs| - 1].endBefore == None && !IsBoundary(specs, key)
    ensures (exists i, j :: 0 <= i < j < |specs| && Covers(specs[i], inclusive, key) && Covers(specs[j], inclusive, key))
       <==> (exists a, b :: 0 < a < b < |specs| && Less(Start(specs, b), key) && Less(key, Start(specs, a)))
  {
    if i, j :| 0 <= i < j < |specs| && Covers(specs[i], inclusive, key) && Covers(specs[j], inclusive, key) {
      assert Start(specs, j) != key;
      Trichotomy(key, Start(specs, i + 1));
      assert 0 < i + 1 < j < |specs| && Less(Start(specs, j), key) && Less(key, Start(specs, i + 1));
    }
    if a, b :| 0 < a < b < |specs| && Less(Start(specs, b), key) && Less(key, Start(specs, a)) {
      Trichotomy(key, Start(specs, a));
      var i := SomeRangeCovers(specs, inclusive, 0, a, key);
      var j := SomeRangeCovers(specs, inclusive, b, |specs|, key);
      assert 0 <= i < j < |specs| && Covers(specs[i], inclusive, key) && Covers(specs[j], inclusive, key);
    }
  }

  // ----- chains in order

  lemma PastBackwards(specs: seq<PartitionSpec>, inclusive: bool, i: nat, j: nat, key: string)
    requires Chain(specs) && InOrder(specs) && i < j <= |specs| && Past(specs, inclusive, j, key)
    ensures Past(specs, inclusive, i, key) || (j == |specs| && 0 < i && key == Start(specs, i))
    ensures i > 0 && key == Start(specs, i) && j < |specs| ==> inclusive
    ensures i > 0 ==> !Less(key, Start(specs, i))
  {
    if i > 0 {
      var low := Start(specs, i);
      if j < |specs| {
        var high := Start(specs, j);
        assert LessEqual(low, high) && LessEqual(high, key);
        LessEqualTransitive(low, high, key);
        Trichotomy(low, key);
        Trichotomy(high, key);
      } else {
        var end := specs[|specs| - 1].endBefore.value;
        Trichotomy(end, key);
        Trichotomy(key, end);
        assert LessEqual(low, end) && LessEqual(end, key);
        LessEqualTransitive(low, end, key);
        Trichotomy(low, key);
      }
    }
  }

  /** Ranges in order are pairwise disjoint. */
  lemma Disjoint(specs: seq<PartitionSpec>, inclusive: bool, i: nat, j: nat, key: string)
    requires Chain(specs) && InOrder(specs) && i < j < |specs|
    ensures !(Covers(specs[i], inclusive, key) && Covers(specs[j], inclusive, key))
  {
    if Past(specs, inclusive, j, key) && i + 1 < j {
      PastBackwards(specs, inclusive, i + 1, j, key);
    } else if Past(specs, inclusive, j, key) {
      Trichotomy(Start(specs, j), key);
      LessIrreflexive(key);
    }
  }

  /** Below the end of the last range. */
  predicate BelowLast(specs: seq<PartitionSpec>, key: string)
    requires specs != []
  {
    BelowEnd(specs[|specs| - 1].endBefore, key)
  }

  /**
    The exact cover of ranges in order: with exclusive starts, everything below the end of the last
    range but the interior boundaries; with inclusive starts, everything below that end.
   */
  lemma ExactCover(specs: seq<PartitionSpec>, inclusive: bool, key: string)
    requires Chain(specs) && InOrder(specs)
    ensures (exists i :: 0 <= i < |specs| && Covers(specs[i], inclusive, key))
       <==> BelowLast(specs, key) && (inclusive || !IsBoundary(specs, key))
  {
    var n := |specs|;
    if i :| 0 <= i < n && Covers(specs[i], inclusive, key) {
      CoveredIsBelow(specs, inclusive, i, key);
      if !inclusive && IsBoundary(specs, key) {
        var b :| 0 < b < n && Start(specs, b) == key;
        BoundaryNotCovered(specs, b, i);
      }
    }
    if BelowLast(specs, key) && (inclusive || !IsBoundary(specs, key)) {
      if IsBoundary(specs, key) {
        var b :| 0 < b < n && Start(specs, b) == key;
        var i := LastAt(specs, b);
        assert Covers(specs[i], inclusive, key);
      } else {
        var i := SomeRangeCovers(specs, inclusive, 0, n, key);
      }
    }
  }

  lemma CoveredIsBelow(specs: seq<PartitionSpec>, inclusive: bool, i: nat, key: string)
    requires Chain(specs) && InOrder(specs) && i < |specs| && Covers(specs[i], inclusive, key)
    ensures BelowLast(specs, key)
  {
    if specs[|specs| - 1].endBefore.Some? && i + 1 < |specs| {
      var next, end := Start(specs, i + 1), specs[|specs| - 1].endBefore.value;
      if next != end {
        LessTransitive(key, next, end);
      }
    }
  }

  lemma BoundaryNotCovered(specs: seq<PartitionSpec>, b: nat, i: nat)
    requires Chain(specs) && InOrder(specs) && 0 < b < |specs| && i < |specs|
    ensures !Covers(specs[i], false, Start(specs, b))
  {
    var key := Start(specs, b);
    LessIrreflexive(key);
    if i < b {
      var next := Start(specs, i + 1);
      assert LessEqual(next, key);
      Trichotomy(next, key);
      Trichotomy(key, next);
    } else if i > b {
      Trichotomy(key, Start(specs, i));
      Trichotomy(Start(specs, i), key);
    }
  }

  /** The last position with the same boundary as position `b`. */
  lemma {:induction false} LastAt(specs: seq<PartitionSpec>, b: nat) returns (i: nat)
    requires Chain(specs) && InOrder(specs) && 0 < b < |specs| && BelowLast(specs, Start(specs, b))
    ensures b <= i < |specs| && Start(specs, i) == Start(specs, b)
    ensures i + 1 < |specs| ==> Less(Start(specs, b), Start(specs, i + 1))
    decreases |specs| - b
  {
    if b + 1 < |specs| && Start(specs, b + 1) == Start(specs, b) {
      i := LastAt(specs, b + 1);
    } else {
      i := b;
      if b + 1 < |specs| {
        assert LessEqual(Start(specs, b), Start(specs, b + 1));
      }
    }
  }

  // ----- the listings of all workers together

  /** The listings of the first `m` workers, one after another. */
  function ListFirst(bucket: seq<string>, specs: seq<PartitionSpec>, inclusive: bool, keep: string -> bool, m: nat): seq<string>
    requires m <= |specs|
  {
    if m == 0 then []
    else ListFirst(bucket, specs, inclusive, keep, m - 1) + Filter(bucket, Listed(specs[m - 1], inclusive, keep))
  }

  /** Listing what comes before and then what comes after is listing both. */
  lemma {:induction false} FilterSplit(keys: seq<string>, p: string -> bool, q: string -> bool)
    requires Sorted(keys)
    requires forall x, y :: x in keys && y in keys && p(x) && q(y) ==> Less(x, y)
    ensures Filter(keys, p) + Filter(keys, q) == Filter(keys, (k: string) => p(k) || q(k))
  {
    if keys != [] {
      var n := |keys| - 1;
      var init, last := keys[..n], keys[n];
      FilterSplit(init, p, q);
      LessIrreflexive(last);
      if p(last) {
        forall i | 0 <= i < n ensures !q(init[i]) {
          assert LessEqual(keys[i], last);
          Trichotomy(last, keys[i]);
          Trichotomy(keys[i], last);
        }
        FilterNone(init, q);
        assert !q(last);
        assert Filter(keys, q) == [] && Filter(init, p) + [] == Filter(init, p);
      }
    }
  }

  lemma FilterUnion(keys: seq<string>, p: string -> bool, q: string -> bool, r: string -> bool)
    requires Sorted(keys)
    requires forall x, y :: p(x) && q(y) ==> Less(x, y)
    requires forall k :: r(k) == (p(k) || q(k))
    ensures Filter(keys, p) + Filter(keys, q) == Filter(keys, r)
  {
    hide Filter, Sorted, Less;
    FilterSplit(keys, p, q);
    FilterSame(keys, (k: string) => p(k) || q(k), r);
  }

  lemma CoveredInOrder(specs: seq<PartitionSpec>, inclusive: bool, i: nat, j: nat, x: string, y: string)
    requires Chain(specs) && InOrder(specs) && i < j < |specs|
    requires Covers(specs[i], inclusive, x) && Covers(specs[j], inclusive, y)
    ensures Less(x, y)
  {
    var a, b := Start(specs, i + 1), Start(specs, j);
    assert LessEqual(a, b) || a == b;
    if a != b {
      LessTransitive(x, a, b);
    }
    if b != y {
      LessTransitive(x, b, y);
    }
  }

  predicate CoveredByFirst(specs: seq<PartitionSpec>, inclusive: bool, m: nat, key: string)
    requires m <= |specs|
  {
    exists i :: 0 <= i < m && Covers(specs[i], inclusive, key)
  }

  lemma CoveredByOneMore(specs: seq<PartitionSpec>, inclusive: bool, m: nat, key: string)
    requires Chain(specs) && InOrder(specs) && m < |specs|
    ensures CoveredByFirst(specs, inclusive, m, key) <==>
            CoveredByFirst(specs, inclusive, m + 1, key) && !Covers(specs[m], inclusive, key)
    ensures Covers(specs[m], inclusive, key) ==> CoveredByFirst(specs, inclusive, m + 1, key)
  {
    hide Chain, InOrder, Covers;
    if CoveredByFirst(specs, inclusive, m, key) {
      var i :| 0 <= i < m && Covers(specs[i], inclusive, key);
      Disjoint(specs, inclusive, i, m, key);
    }
  }

  lemma FirstBefore(specs: seq<PartitionSpec>, inclusive: bool, m: nat, x: string, y: string)
    requires Chain(specs) && InOrder(specs) && m < |specs|
    requires CoveredByFirst(specs, inclusive, m, x) && Covers(specs[m], inclusive, y)
    ensures Less(x, y)
  {
    hide Chain, InOrder, Covers;
    var i :| 0 <= i < m && Covers(specs[i], inclusive, x);
    CoveredInOrder(specs, inclusive, i, m, x, y);
  }

  /** The keys that one of the first `m` workers yields. */
  function ListedByFirst(specs: seq<PartitionSpec>, inclusive: bool, keep: string -> bool, m: nat): string -> bool
    requires m <= |specs|
  {
    (key: string) => IsFile(key) && keep(key) && CoveredByFirst(specs, inclusive, m, key)
  }

  lemma OneMoreWorker(specs: seq<PartitionSpec>, inclusive: bool, keep: string -> bool, m: nat)
    requires Chain(specs) && InOrder(specs) && m < |specs|
    ensures var before, here := ListedByFirst(specs, inclusive, keep, m), Listed(specs[m], inclusive, keep);
            && (forall x, y :: before(x) && here(y) ==> Less(x, y))
            && (forall k :: ListedByFirst(specs, inclusive, keep, m + 1)(k) == (before(k) || here(k)))
  {
    hide Chain, InOrder, Covers, IsFile, CoveredByFirst, Less;
    var before, here := ListedByFirst(specs, inclusive, keep, m), Listed(specs[m], inclusive, keep);
    forall x, y | before(x) && here(y) ensures Less(x, y) {
      FirstBefore(specs, inclusive, m, x, y);
    }
    forall k ensures ListedByFirst(specs, inclusive, keep, m + 1)(k) == (before(k) || here(k)) {
      CoveredByOneMore(specs, inclusive, m, k);
    }
  }

  lemma {:induction false} FirstListed(bucket: seq<string>, specs: seq<PartitionSpec>, inclusive: bool, keep: string -> bool, m: nat)
    requires Sorted(bucket) && Chain(specs) && InOrder(specs) && m <= |specs|
    ensures ListFirst(bucket, specs, inclusive, keep, m) == Filter(bucket, ListedByFirst(specs, inclusive, keep, m))
  {
    if m == 0 {
      FilterNone(bucket, ListedByFirst(specs, inclusive, keep, 0));
    } else {
      hide Chain, InOrder, Sorted, Less, Listed, ListedByFirst, Filter;
      var before, here := ListedByFirst(specs, inclusive, keep, m - 1), Listed(specs[m - 1], inclusive, keep);
      FirstListed(bucket, specs, inclusive, keep, m - 1);
      OneMoreWorker(specs, inclusive, keep, m - 1);
      FilterUnion(bucket, before, here, ListedByFirst(specs, inclusive, keep, m));
    }
  }

  /**
    Ranges in order: the workers' listings, one after another, are the listing of the bucket without
    the keys past the last end and, for exclusive starts, without the interior boundaries.  So every
    other key is listed, and listed once.
   */
  lemma AllListings(bucket: seq<string>, specs: seq<PartitionSpec>, inclusive: bool, keep: string -> bool, p: string -> bool)
    requires Sorted(bucket) && Chain(specs) && InOrder(specs)
    requires forall k :: p(k) <==> IsFile(k) && keep(k) && BelowLast(specs, k) && (inclusive || !IsBoundary(specs, k))
    ensures ListFirst(bucket, specs, inclusive, keep, |specs|) == Filter(bucket, p)
  {
    hide Chain, InOrder, Sorted, Covers, IsFile, IsBoundary, BelowLast;
    var listed := ListedByFirst(specs, inclusive, keep, |specs|);
    forall k ensures p(k) == listed(k) {
      ExactCover(specs, inclusive, k);
    }
    FirstListed(bucket, specs, inclusive, keep, |specs|);
    FilterSame(bucket, listed, p);
  }

  // ----- key-range partitions

  function InsertKey(key: string, keys: seq<string>): seq<string> {
    if keys == [] || LessEqual(key, keys[0]) then [key] + keys else [keys[0]] + InsertKey(key, keys[1..])
  }

  /** `sample_keys.sort()` */
  function SortedKeys(keys: seq<string>): seq<string> {
    if keys == [] then [] else InsertKey(keys[0], SortedKeys(keys[1..]))
  }

  lemma {:induction false} InsertSorted(key: string, keys: seq<string>)
    requires Sorted(keys)
    ensures Sorted(InsertKey(key, keys)) && multiset(InsertKey(key, keys)) == multiset(keys) + multiset{key}
  {
    if keys == [] {
    } else if LessEqual(key, keys[0]) {
      forall j | 0 <= j < |keys| ensures LessEqual(key, keys[j]) {
        if j > 0 {
          LessEqualTransitive(key, keys[0], keys[j]);
        }
      }
    } else {
      InsertSorted(key, keys[1..]);
      var rest := InsertKey(key, keys[1..]);
      Trichotomy(key, keys[0]);
      assert keys == [keys[0]] + keys[1..];
      forall j | 0 <= j < |rest| ensures LessEqual(keys[0], rest[j]) {
        assert rest[j] in multiset(rest);
        assert rest[j] == key || rest[j] in keys[1..];
      }
    }
  }

  lemma {:induction false} SortedKeysSorted(keys: seq<string>)
    ensures Sorted(SortedKeys(keys)) && multiset(SortedKeys(keys)) == multiset(keys)
    ensures |SortedKeys(keys)| == |keys|
  {
    if keys != [] {
      SortedKeysSorted(keys[1..]);
      InsertSorted(keys[0], SortedKeys(keys[1..]));
      assert keys == [keys[0]] + keys[1..];
      assert |SortedKeys(keys)| == |multiset(SortedKeys(keys))| == |multiset(keys)|;
    }
  }

  function KeyAt(sorted: seq<string>, i: nat): Option<string> {
    if i < |sorted| then Some(sorted[i]) else None
  }

  /** The position of the `i`-th quantile in the sorted sample. */
  function Quantile(i: nat, step: nat): nat {
    i * step
  }

  function KeyrangeSpec(sorted: seq<string>, step: nat, i: nat): PartitionSpec {
    PartitionSpec(if i > 0 then KeyAt(sorted, Quantile(i, step)) else None, KeyAt(sorted, Quantile(i + 1, step)), None)
  }

  lemma MulMonotone(a: nat, b: nat, c: nat)
    requires a <= b
    ensures a * c <= b * c
  {
  }

  lemma QuantilesRise(i: nat, j: nat, step: nat)
    requires i <= j
    ensures Quantile(i, step) <= Quantile(j, step)
  {
    MulMonotone(i, j, step);
  }

  lemma QuantileInSample(len: nat, n: nat, step: nat, i: nat)
    requires n > 0 && step == len / n && i < n && len >= 2 * n
    ensures Quantile(i, step) < len && Quantile(i + 1, step) <= Quantile(n, step) <= len
  {
    MulMonotone(i + 1, n, step);
    assert (i + 1) * step == i * step + step;
    assert n * step <= len && step >= 2;
  }

  /** `_compute_keyrange_partitions` */
  method ComputeKeyrangePartitions(sample: seq<string>, numPartitions: nat) returns (specs: seq<PartitionSpec>)
    requires numPartitions > 0
    ensures |sample| < 2 * numPartitions ==> specs == [WHOLE]
    ensures |sample| >= 2 * numPartitions ==>
              |specs| == numPartitions &&
              forall i :: 0 <= i < numPartitions ==>
                specs[i] == KeyrangeSpec(SortedKeys(sample), |sample| / numPartitions, i)
  {
    if |sample| < numPartitions * 2 {
      return [WHOLE];
    }
    var sampleKeys := SortedKeys(sample);
    SortedKeysSorted(sample);
    specs := [];
    var step := |sampleKeys| / numPartitions;
    for i := 0 to numPartitions
      invariant |specs| == i
      invariant forall j :: 0 <= j < i ==> specs[j] == KeyrangeSpec(sampleKeys, step, j)
    {
      QuantileInSample(|sampleKeys|, numPartitions, step, i);
      var startAfter := if i > 0 then Some(sampleKeys[i * step]) else None;
      var endIdx := (i + 1) * step;
      var endBefore := if endIdx < |sampleKeys| then Some(sampleKeys[endIdx]) else None;
      specs := specs + [PartitionSpec(startAfter, endBefore, None)];
    }
  }

  /** The ranges the coordinator computes from a large enough sample of keys. */
  ghost predicate IsKeyrange(sample: seq<string>, n: nat, step: nat, specs: seq<PartitionSpec>) {
    && n > 0 && |sample| >= 2 * n && step == |sample| / n && |specs| == n && "" !in sample
    && forall i :: 0 <= i < n ==> specs[i] == KeyrangeSpec(SortedKeys(sample), step, i)
  }

  lemma SampleFacts(sample: seq<string>)
    requires "" !in sample
    ensures Sorted(SortedKeys(sample)) && |SortedKeys(sample)| == |sample| && "" !in SortedKeys(sample)
    ensures multiset(SortedKeys(sample)) == multiset(sample)
  {
    SortedKeysSorted(sample);
    assert "" !in multiset(sample);
  }

  lemma KeyrangeFacts(sample: seq<string>, n: nat, step: nat, specs: seq<PartitionSpec>)
    requires IsKeyrange(sample, n, step, specs)
    ensures n > 0 && |specs| == n && Sorted(SortedKeys(sample)) && "" !in SortedKeys(sample)
    ensures forall i :: 0 <= i < n ==> specs[i] == KeyrangeSpec(SortedKeys(sample), step, i)
    ensures forall i :: 0 <= i < n ==> Quantile(i, step) < |SortedKeys(sample)|
  {
    SampleFacts(sample);
    forall i | 0 <= i < n ensures Quantile(i, step) < |SortedKeys(sample)| {
      QuantileInSample(|sample|, n, step, i);
    }
  }

  lemma SortedAt(sorted: seq<string>, i: nat, j: nat)
    requires Sorted(sorted) && i <= j < |sorted|
    ensures LessEqual(sorted[i], sorted[j])
  {
  }

  lemma KeyrangeChain(sample: seq<string>, n: nat, step: nat, specs: seq<PartitionSpec>)
    requires IsKeyrange(sample, n, step, specs)
    ensures Chain(specs) && InOrder(specs)
    ensures forall i :: 0 < i < n ==> KeyAt(SortedKeys(sample), Quantile(i, step)) == Some(Start(specs, i))
    ensures specs[n - 1].endBefore == KeyAt(SortedKeys(sample), Quantile(n, step))
  {
    hide Less, LessEqual, SortedKeys, Sorted, IsKeyrange, Quantile;
    var sorted := SortedKeys(sample);
    KeyrangeFacts(sample, n, step, specs);
    assert specs[0] == KeyrangeSpec(sorted, step, 0);
    assert specs[n - 1] == KeyrangeSpec(sorted, step, n - 1);
    var end := specs[n - 1].endBefore;
    assert end.Some? ==> end.value in sorted;
    forall i | 0 < i < n
      ensures specs[i].startAfter == Some(Start(specs, i)) && Start(specs, i) != ""
      ensures Start(specs, i) == sorted[Quantile(i, step)] && specs[i - 1].endBefore == specs[i].startAfter
      ensures end.Some? ==> LessEqual(Start(specs, i), end.value)
    {
      assert specs[i] == KeyrangeSpec(sorted, step, i) && specs[i - 1] == KeyrangeSpec(sorted, step, i - 1);
      assert Quantile(i, step) < |sorted|;
      if end.Some? {
        QuantilesRise(i, n, step);
        SortedAt(sorted, Quantile(i, step), Quantile(n, step));
      }
    }
    forall i, j | 0 < i < j < n ensures LessEqual(Start(specs, i), Start(specs, j)) {
      QuantilesRise(i, j, step);
      SortedAt(sorted, Quantile(i, step), Quantile(j, step));
    }
    ChainFrom(specs);
  }

  lemma ChainFrom(specs: seq<PartitionSpec>)
    requires specs != [] && specs[0].startAfter == None && specs[|specs| - 1].endBefore != Some("")
    requires forall i :: 0 < i < |specs| ==> specs[i].startAfter == Some(Start(specs, i)) && Start(specs, i) != ""
    requires forall i :: 0 < i < |specs| ==> specs[i - 1].endBefore == specs[i].startAfter
    ensures Chain(specs)
  {
    forall i, j | 0 <= i && j == i + 1 && j < |specs| ensures specs[i].endBefore == specs[j].startAfter {
      assert specs[j - 1].endBefore == specs[j].startAfter;
    }
  }

  /**
    What a key-range fan-out lists, for every sorted bucket: each key once, except that with
    exclusive starts (S3, Azure) the sampled keys at multiples of the step are missed, and that
    the keys from `sorted[n * step]` on are missed when there is such a key.
   */
  lemma KeyrangeListing(bucket: seq<string>, sample: seq<string>, n: nat, step: nat, specs: seq<PartitionSpec>,
                        inclusive: bool, keep: string -> bool, p: string -> bool)
    requires Sorted(bucket) && IsKeyrange(sample, n, step, specs)
    requires forall k :: p(k) <==>
               && IsFile(k) && keep(k) && BelowEnd(KeyAt(SortedKeys(sample), Quantile(n, step)), k)
               && (inclusive || !IsQuantile(SortedKeys(sample), n, step, k))
    ensures |specs| == n && ListFirst(bucket, specs, inclusive, keep, n) == Filter(bucket, p)
  {
    hide IsFile, Less, SortedKeys, Sorted, Chain, InOrder, IsKeyrange, KeyAt, BelowEnd, Quantile;
    KeyrangeChain(sample, n, step, specs);
    KeyrangeFacts(sample, n, step, specs);
    forall k ensures p(k) <==> IsFile(k) && keep(k) && BelowLast(specs, k) && (inclusive || !IsBoundary(specs, k)) {
      BoundaryIsQuantile(specs, SortedKeys(sample), step, n, k);
    }
    AllListings(bucket, specs, inclusive, keep, p);
  }

  /** The key is one of the interior quantiles of the sample. */
  ghost predicate IsQuantile(sorted: seq<string>, n: nat, step: nat, k: string) {
    exists i :: 0 < i < n && KeyAt(sorted, Quantile(i, step)) == Some(k)
  }

  lemma BoundaryIsQuantile(specs: seq<PartitionSpec>, sorted: seq<string>, step: nat, n: nat, k: string)
    requires |specs| == n && forall i :: 0 < i < n ==> KeyAt(sorted, Quantile(i, step)) == Some(Start(specs, i))
    ensures IsBoundary(specs, k) <==> IsQuantile(sorted, n, step, k)
  {
    hide Quantile;
    if IsBoundary(specs, k) {
      var i :| 0 < i < n && Start(specs, i) == k;
      assert KeyAt(sorted, Quantile(i, step)) == Some(k);
    }
    if i :| 0 < i < n && KeyAt(sorted, Quantile(i, step)) == Some(k) {
      assert Start(specs, i) == k;
    }
  }

  /** There is a key at that place, and it is missed with all after it, exactly when `n` does not divide the sample. */
  lemma TailMissedIff(sample: seq<string>, n: nat)
    requires n > 0 && "" !in sample
    ensures KeyAt(SortedKeys(sample), Quantile(n, |sample| / n)).Some? <==> |sample| % n != 0
  {
    hide SortedKeys, Sorted;
    SampleFacts(sample);
    var q, r := |sample| / n, |sample| % n;
    assert |sample| == n * q + r;
    assert Quantile(n, q) == n * q;
  }

  // ----- prefix partitions

  /** Python's `rstrip("/")` */
  function StripSlashes(s: string): string {
    if s != "" && s[|s| - 1] == '/' then StripSlashes(s[..|s| - 1]) else s
  }

  function PrefixSpec(prefixes: seq<string>, n: nat, i: nat): PartitionSpec
    requires 0 < n < |prefixes| && i < n
  {
    var chunk := |prefixes| / n;
    PartitionSpec(if i > 0 then PrefixBound(prefixes, Quantile(i, chunk)) else None,
                  if i < n - 1 then PrefixBound(prefixes, Quantile(i + 1, chunk)) else None, None)
  }

  function PrefixBound(prefixes: seq<string>, i: nat): Option<string> {
    if i < |prefixes| then Some(StripSlashes(prefixes[i])) else None
  }

  /** `_compute_prefix_partitions`, from the listed prefixes on. */
  method ComputePrefixPartitions(prefixes: seq<string>, numPartitions: nat) returns (specs: seq<PartitionSpec>)
    requires numPartitions > 0
    ensures |prefixes| < 2 ==> specs == []
    ensures 2 <= |prefixes| <= numPartitions ==>
              |specs| == |prefixes| &&
              forall i :: 0 <= i < |prefixes| ==> specs[i] == PartitionSpec(None, None, Some(prefixes[i]))
    ensures 2 <= |prefixes| && numPartitions < |prefixes| ==>
              |specs| == numPartitions && forall i :: 0 <= i < numPartitions ==> specs[i] == PrefixSpec(prefixes, numPartitions, i)
  {
    specs := [];
    if |prefixes| < 2 {
      return;
    }
    if |prefixes| <= numPartitions {
      specs := seq(|prefixes|, i requires 0 <= i < |prefixes| => PartitionSpec(None, None, Some(prefixes[i])));
      return;
    }
    var chunkSize := |prefixes| / numPartitions;
    for i := 0 to numPartitions
      invariant |specs| == i
      invariant forall j :: 0 <= j < i ==> specs[j] == PrefixSpec(prefixes, numPartitions, j)
    {
      ChunkInRange(|prefixes|, numPartitions, chunkSize, i);
      var start := i * chunkSize;
      var end := if i < numPartitions - 1 then start + chunkSize else |prefixes|;
      var group := prefixes[start..end];
      if group != [] {
        specs := specs + [PartitionSpec(if i > 0 then Some(StripSlashes(group[0])) else None,
                                        if end < |prefixes| then Some(StripSlashes(prefixes[end])) else None, None)];
      }
    }
  }

  lemma ChunkInRange(len: nat, n: nat, chunk: nat, i: nat)
    requires 0 < n < len && chunk == len / n && i < n
    ensures Quantile(i, chunk) < len && Quantile(i, chunk) + chunk <= len && chunk > 0
    ensures Quantile(i + 1, chunk) == Quantile(i, chunk) + chunk && (i < n - 1 ==> Quantile(i + 1, chunk) < len)
  {
    assert n * chunk <= len && chunk >= 1;
    assert (i + 1) * chunk == i * chunk + chunk;
    MulMonotone(i + 1, n, chunk);
    if i < n - 1 {
      assert (i + 2) * chunk == (i + 1) * chunk + chunk;
      MulMonotone(i + 2, n, chunk);
    }
  }

  /**
    Stripping the slashes can put boundaries out of order: from the prefixes `a/`, `b-x/`, `b/` and
    `c/`, listed in order, three workers get ranges of which the first and the third list `b#`.
   */
  lemma StrippingBreaksOrder()
    ensures var prefixes := ["a/", "b-x/", "b/", "c/"];
            && Sorted(prefixes)
            && Covers(PrefixSpec(prefixes, 3, 0), false, "b#") && Covers(PrefixSpec(prefixes, 3, 2), false, "b#")
  {
    var prefixes := ["a/", "b-x/", "b/", "c/"];
    assert StripSlashes("b-x/") == "b-x" by { assert "b-x/"[..3] == "b-x"; }
    assert StripSlashes("b/") == "b" by { assert "b/"[..1] == "b"; }
    assert "b#"[1..] == "#" && "b-x"[1..] == "-x" && "b"[1..] == "" && "b/"[1..] == "/" && "b-x/"[1..] == "-x/";
    assert Less("b#", "b-x") && Less("b", "b#");
    assert Less("b-x/", "b/") && Less("a/", "b-x/") && Less("b/", "c/") && Less("a/", "b/") && Less("a/", "c/") && Less("b-x/", "c/");
    assert 4 / 3 == 1;
  }
}
