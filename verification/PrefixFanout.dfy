/**
  How often a fan-out over prefixes lists each key: the ranges that the coordinator makes of the
  top-level prefixes of a bucket.
 */
module PrefixFanout {
  import opened Results
  import opened Ordering
  import opened Fanout
  import opened FanoutCoverage

  /** What `_compute_prefix_partitions` makes of two or more prefixes. */
  ghost predicate IsPrefixPartition(prefixes: seq<string>, n: nat, specs: seq<PartitionSpec>) {
    && 2 <= |prefixes| && 0 < n
    && if |prefixes| <= n
       then |specs| == |prefixes| && forall i :: 0 <= i < |specs| ==> specs[i] == PartitionSpec(None, None, Some(prefixes[i]))
       else |specs| == n && forall i :: 0 <= i < |specs| ==> specs[i] == PrefixSpec(prefixes, n, i)
  }

  // ----- one partition for each prefix

  function Repeated(keys: seq<string>, m: nat): seq<string> {
    if m == 0 then [] else Repeated(keys, m - 1) + keys
  }

  /** With no more prefixes than partitions, the workers together list the whole bucket once for each prefix. */
  lemma {:induction false} EachPrefixListsAll(bucket: seq<string>, prefixes: seq<string>, n: nat, specs: seq<PartitionSpec>,
                                              inclusive: bool, keep: string -> bool, m: nat)
    requires IsPrefixPartition(prefixes, n, specs) && |prefixes| <= n && m <= |specs|
    ensures ListFirst(bucket, specs, inclusive, keep, m) == Repeated(Filter(bucket, (k: string) => IsFile(k) && keep(k)), m)
  {
    if m > 0 {
      EachPrefixListsAll(bucket, prefixes, n, specs, inclusive, keep, m - 1);
      assert specs[m - 1] == PartitionSpec(None, None, Some(prefixes[m - 1]));
      FilterSame(bucket, Listed(specs[m - 1], inclusive, keep), (k: string) => IsFile(k) && keep(k));
    }
  }

  // ----- how many workers list a key

  function Workers(specs: seq<PartitionSpec>, inclusive: bool, key: string, m: nat): nat
    requires m <= |specs|
  {
    if m == 0 then 0
    else Workers(specs, inclusive, key, m - 1) + if Covers(specs[m - 1], inclusive, key) then 1 else 0
  }

  lemma {:induction false} WorkersCounted(specs: seq<PartitionSpec>, inclusive: bool, key: string, m: nat)
    requires m <= |specs|
    ensures Workers(specs, inclusive, key, m) >= 1 <==> exists i :: 0 <= i < m && Covers(specs[i], inclusive, key)
    ensures Workers(specs, inclusive, key, m) >= 2 <==>
            exists i, j :: 0 <= i < j < m && Covers(specs[i], inclusive, key) && Covers(specs[j], inclusive, key)
  {
    if m > 0 {
      hide Covers;
      WorkersCounted(specs, inclusive, key, m - 1);
      if i :| 0 <= i < m - 1 && Covers(specs[i], inclusive, key) {
        assert Covers(specs[m - 1], inclusive, key) ==> 0 <= i < m - 1 < m;
      }
    }
  }

  lemma {:induction false} KeptCount(keys: seq<string>, p: string -> bool, key: string)
    ensures multiset(Filter(keys, p))[key] == if p(key) then multiset(keys)[key] else 0
  {
    if keys != [] {
      KeptCount(keys[..|keys| - 1], p, key);
      assert keys == keys[..|keys| - 1] + [keys[|keys| - 1]];
    }
  }

  function Times(a: nat, b: nat): nat {
    a * b
  }

  /** A key of the bucket is in the listings together as often as workers cover it. */
  lemma {:induction false} ListedByWorkers(bucket: seq<string>, specs: seq<PartitionSpec>, inclusive: bool, keep: string -> bool,
                                           key: string, m: nat)
    requires m <= |specs| && IsFile(key) && keep(key)
    ensures multiset(ListFirst(bucket, specs, inclusive, keep, m))[key]
         == Times(Workers(specs, inclusive, key, m), multiset(bucket)[key])
  {
    hide *;
    if m == 0 {
      NobodyLists(bucket, specs, inclusive, keep, key);
    } else {
      ListedByWorkers(bucket, specs, inclusive, keep, key, m - 1);
      OneWorkerLists(bucket, specs, inclusive, keep, key, m - 1);
      OneMoreTime(Workers(specs, inclusive, key, m - 1), multiset(bucket)[key]);
    }
  }

  lemma NobodyLists(bucket: seq<string>, specs: seq<PartitionSpec>, inclusive: bool, keep: string -> bool, key: string)
    ensures multiset(ListFirst(bucket, specs, inclusive, keep, 0))[key] == 0
         == Times(Workers(specs, inclusive, key, 0), multiset(bucket)[key])
  {
    hide Times;
    OneMoreTime(0, multiset(bucket)[key]);
    assert ListFirst(bucket, specs, inclusive, keep, 0) == [];
  }

  lemma OneWorkerLists(bucket: seq<string>, specs: seq<PartitionSpec>, inclusive: bool, keep: string -> bool, key: string, m: nat)
    requires m < |specs| && IsFile(key) && keep(key)
    ensures var more := if Covers(specs[m], inclusive, key) then 1 else 0;
            && Workers(specs, inclusive, key, m + 1) == Workers(specs, inclusive, key, m) + more
            && multiset(ListFirst(bucket, specs, inclusive, keep, m + 1))[key]
               == multiset(ListFirst(bucket, specs, inclusive, keep, m))[key] + if more == 1 then multiset(bucket)[key] else 0
  {
    var before, last := ListFirst(bucket, specs, inclusive, keep, m), Filter(bucket, Listed(specs[m], inclusive, keep));
    KeptCount(bucket, Listed(specs[m], inclusive, keep), key);
    assert ListFirst(bucket, specs, inclusive, keep, m + 1) == before + last;
    hide Covers, IsFile, ListFirst, Filter;
    assert Listed(specs[m], inclusive, keep)(key) == Covers(specs[m], inclusive, key);
  }

  lemma OneMoreTime(a: nat, b: nat)
    ensures Times(a + 1, b) == Times(a, b) + b && Times(0, b) == 0
  {
  }

  // ----- grouped prefixes

  /** The key lies between two boundaries that are out of order. */
  ghost predicate Crossed(specs: seq<PartitionSpec>, key: string) {
    exists a, b :: 0 < a < b < |specs| && Less(Start(specs, b), key) && Less(key, Start(specs, a))
  }

  /** A boundary that strips to nothing, as that of the prefix `/` does. */
  ghost predicate HasEmptyBoundary(specs: seq<PartitionSpec>) {
    exists b :: 0 < b < |specs| && Start(specs, b) == ""
  }

  /** Consecutive ranges as in a chain, where a boundary may be empty. */
  ghost predicate Consecutive(specs: seq<PartitionSpec>) {
    && specs != [] && specs[0].startAfter == None && specs[|specs| - 1].endBefore == None
    && (forall i :: 0 < i < |specs| ==> specs[i].startAfter == Some(Start(specs, i)))
    && (forall i, j :: 0 <= i && j == i + 1 && j < |specs| ==> specs[i].endBefore == specs[j].startAfter)
  }

  lemma GroupsAreConsecutive(prefixes: seq<string>, n: nat, specs: seq<PartitionSpec>)
    requires IsPrefixPartition(prefixes, n, specs) && n < |prefixes|
    ensures Consecutive(specs)
  {
    hide StripSlashes;
    forall i | 0 < i < n
      ensures specs[i].startAfter == Some(Start(specs, i)) && specs[i - 1].endBefore == specs[i].startAfter
    {
      ChunkInRange(|prefixes|, n, |prefixes| / n, i);
      assert specs[i] == PrefixSpec(prefixes, n, i) && specs[i - 1] == PrefixSpec(prefixes, n, i - 1);
    }
    forall i, j | 0 <= i && j == i + 1 && j < n
      ensures specs[i].endBefore == specs[j].startAfter
    {
      assert specs[j - 1].endBefore == specs[j].startAfter;
    }
    assert specs[0] == PrefixSpec(prefixes, n, 0) && specs[n - 1] == PrefixSpec(prefixes, n, n - 1);
  }

  /** The ranges from `lo` to `hi`, with open ends. */
  function Part(specs: seq<PartitionSpec>, lo: nat, hi: nat): seq<PartitionSpec>
    requires lo < hi <= |specs|
  {
    seq(hi - lo, i requires 0 <= i < hi - lo =>
      PartitionSpec(if i == 0 then None else specs[lo + i].startAfter,
                    if lo + i + 1 == hi then None else specs[lo + i].endBefore, None))
  }

  /** Between two empty or outermost boundaries, with none in between, some range covers the key. */
  lemma PartCovers(specs: seq<PartitionSpec>, inclusive: bool, lo: nat, hi: nat, key: string) returns (i: nat)
    requires Consecutive(specs) && lo < hi <= |specs| && !IsBoundary(specs, key)
    requires lo == 0 || Start(specs, lo) == ""
    requires hi == |specs| || Start(specs, hi) == ""
    requires forall k :: lo < k < hi ==> Start(specs, k) != ""
    ensures lo <= i < hi && Covers(specs[i], inclusive, key)
  {
    var part := Part(specs, lo, hi);
    hide Chain, Less, Consecutive;
    var k := EveryKeyCovered(part, inclusive, key);
    i := lo + k;
    assert Bound(part[k].startAfter) == Bound(specs[i].startAfter) && Bound(part[k].endBefore) == Bound(specs[i].endBefore);
  }

  lemma {:induction false} FirstEmpty(specs: seq<PartitionSpec>, b: nat) returns (first: nat)
    requires 0 < b < |specs| && Start(specs, b) == ""
    ensures 0 < first <= b && Start(specs, first) == "" && forall k :: 0 < k < first ==> Start(specs, k) != ""
  {
    if k :| 0 < k < b && Start(specs, k) == "" {
      first := FirstEmpty(specs, k);
    } else {
      first := b;
    }
  }

  lemma {:induction false} LastEmpty(specs: seq<PartitionSpec>, b: nat) returns (last: nat)
    requires 0 < b < |specs| && Start(specs, b) == ""
    ensures b <= last < |specs| && Start(specs, last) == "" && forall k :: last < k < |specs| ==> Start(specs, k) != ""
    decreases |specs| - b
  {
    if k :| b < k < |specs| && Start(specs, k) == "" {
      last := LastEmpty(specs, k);
    } else {
      last := b;
    }
  }

  /**
    An empty boundary is no boundary for the adapters: the range before it has no end and the range
    after it no start, so every key is listed on both sides.
   */
  lemma EmptyBoundaryDoubles(specs: seq<PartitionSpec>, inclusive: bool, key: string) returns (i: nat, j: nat)
    requires Consecutive(specs) && HasEmptyBoundary(specs) && !IsBoundary(specs, key)
    ensures i < j < |specs| && Covers(specs[i], inclusive, key) && Covers(specs[j], inclusive, key)
  {
    var b :| 0 < b < |specs| && Start(specs, b) == "";
    var first := FirstEmpty(specs, b);
    var last := LastEmpty(specs, b);
    i := PartCovers(specs, inclusive, 0, first, key);
    j := PartCovers(specs, inclusive, last, |specs|, key);
  }

  /**
    When a prefix fan-out lists a key exactly once: the prefixes are grouped, none of the boundaries
    strips to nothing, and the key lies between no two boundaries that are out of order.
   */
  lemma ListedOnceIff(prefixes: seq<string>, n: nat, specs: seq<PartitionSpec>, inclusive: bool, key: string)
    requires IsPrefixPartition(prefixes, n, specs) && !IsBoundary(specs, key)
    ensures Workers(specs, inclusive, key, |specs|) >= 1
    ensures Workers(specs, inclusive, key, |specs|) == 1 <==>
            n < |prefixes| && !HasEmptyBoundary(specs) && !Crossed(specs, key)
  {
    WorkersCounted(specs, inclusive, key, |specs|);
    if |prefixes| <= n {
      assert specs[0] == PartitionSpec(None, None, Some(prefixes[0])) && specs[1] == PartitionSpec(None, None, Some(prefixes[1]));
      assert Covers(specs[0], inclusive, key) && Covers(specs[1], inclusive, key);
    } else {
      GroupsAreConsecutive(prefixes, n, specs);
      hide IsPrefixPartition, Covers, Less, Workers;
      if HasEmptyBoundary(specs) {
        var i, j := EmptyBoundaryDoubles(specs, inclusive, key);
      } else {
        assert Chain(specs);
        var i := EveryKeyCovered(specs, inclusive, key);
        ListedTwiceIff(specs, inclusive, key);
      }
    }
  }

  /** From the prefixes `-x/`, `/` and `a/`, listed in order, two workers get ranges that both list `z`. */
  lemma SlashDoubles()
    ensures var prefixes := ["-x/", "/", "a/"];
            && Sorted(prefixes)
            && Covers(PrefixSpec(prefixes, 2, 0), false, "z") && Covers(PrefixSpec(prefixes, 2, 1), false, "z")
  {
    assert "/"[..0] == "" && StripSlashes("/") == "";
    assert "-x/"[1..] == "x/" && "a/"[1..] == "/" && "/"[1..] == "";
    assert Less("-x/", "/") && Less("/", "a/") && Less("-x/", "a/");
    assert 3 / 2 == 1;
  }
}
