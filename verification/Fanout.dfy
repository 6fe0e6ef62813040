/**
  Splitting a scan over key ranges (`jobs/coordinator.py`), and what each worker lists
  (`list_files` of the S3, GCS and Azure adapters).
 */
module Fanout {
  import opened Results
  import opened Ordering

  // ----- partitions

  /** `PartitionSpec`; an empty bound counts as no bound, and no adapter's `list_files` reads `prefix`. */
  datatype PartitionSpec = PartitionSpec(startAfter: Option<string>, endBefore: Option<string>, prefix: Option<string>)

  const WHOLE := PartitionSpec(None, None, None)

  function Bound(b: Option<string>): Option<string> {
    if b == Some("") then None else b
  }

  /** A key listed for the range, its start excluded (S3, Azure) or included (GCS). */
  predicate Covers(spec: PartitionSpec, inclusive: bool, key: string) {
    && (match Bound(spec.startAfter)
        case None => true
        case Some(start) => Less(start, key) || (inclusive && start == key))
    && (match Bound(spec.endBefore)
        case None => true
        case Some(end) => Less(key, end))
  }

  // ----- listings

  predicate Sorted(keys: seq<string>) {
    forall i, j :: 0 <= i < j < |keys| ==> LessEqual(keys[i], keys[j])
  }

  function Filter(keys: seq<string>, p: string -> bool): seq<string> {
    if keys == [] then []
    else
      var init := Filter(keys[..|keys| - 1], p);
      if p(keys[|keys| - 1]) then init + [keys[|keys| - 1]] else init
  }

  function Flatten(pages: seq<seq<string>>): seq<string> {
    if pages == [] then [] else Flatten(pages[..|pages| - 1]) + pages[|pages| - 1]
  }

  /** "Directory" markers are not listed, nor what the caller's filter leaves out. */
  predicate IsFile(key: string) {
    key == "" || key[|key| - 1] != '/'
  }

  predicate BelowEnd(end: Option<string>, key: string) {
    end.None? || Less(key, end.value)
  }

  lemma {:induction false} FilterConcat(a: seq<string>, b: seq<string>, p: string -> bool)
    ensures Filter(a + b, p) == Filter(a, p) + Filter(b, p)
  {
    if b == [] {
      assert a + b == a;
    } else {
      assert (a + b)[..|a + b| - 1] == a + b[..|b| - 1];
      FilterConcat(a, b[..|b| - 1], p);
    }
  }

  lemma {:induction false} FilterNone(keys: seq<string>, p: string -> bool)
    requires forall i :: 0 <= i < |keys| ==> !p(keys[i])
    ensures Filter(keys, p) == []
  {
    if keys != [] {
      FilterNone(keys[..|keys| - 1], p);
    }
  }

  lemma {:induction false} FlattenSplit(pages: seq<seq<string>>, i: nat)
    requires i < |pages|
    ensures Flatten(pages) == Flatten(pages[..i]) + pages[i] + Flatten(pages[i + 1..])
  {
    var n := |pages| - 1;
    if i == n {
      assert pages[n + 1..] == [];
    } else {
      FlattenSplit(pages[..n], i);
      assert pages[..n][..i] == pages[..i] && pages[..n][i + 1..] == pages[i + 1..][..n - i - 1];
      assert pages[i + 1..][|pages[i + 1..]| - 1] == pages[n];
    }
  }

  lemma FlattenNothing(pages: seq<seq<string>>)
    ensures Flatten(pages[..0]) == []
  {
  }

  lemma FlattenNext(pages: seq<seq<string>>, i: nat)
    requires i < |pages|
    ensures Flatten(pages[..i + 1]) == Flatten(pages[..i]) + pages[i]
  {
    assert pages[..i + 1][..i] == pages[..i];
  }

  /** What a listing with an exclusive end yields: the sorted keys below it that pass the filter. */
  function Wanted(skip: Option<string>, end: Option<string>, keep: string -> bool): string -> bool {
    (key: string) => IsFile(key) && !(skip.Some? && LessEqual(key, skip.value)) && BelowEnd(end, key) && keep(key)
  }

  /** From the first key at or past the end on, a sorted listing holds nothing that is wanted. */
  lemma NothingPastEnd(listing: seq<string>, m: nat, skip: Option<string>, end: string, keep: string -> bool)
    requires Sorted(listing) && m < |listing| && !Less(listing[m], end)
    ensures Filter(listing, Wanted(skip, Some(end), keep)) == Filter(listing[..m], Wanted(skip, Some(end), keep))
  {
    var p := Wanted(skip, Some(end), keep);
    forall j | m <= j < |listing| ensures !p(listing[j]) {
      Trichotomy(listing[m], end);
      if m < j && Less(listing[j], end) {
        assert LessEqual(listing[m], listing[j]);
        LessEqualTransitive(end, listing[m], listing[j]);
        Trichotomy(listing[j], end);
      }
    }
    FilterNone(listing[m..], p);
    FilterConcat(listing[..m], listing[m..], p);
    assert listing[..m] + listing[m..] == listing;
  }

  lemma FilterSnoc(keys: seq<string>, i: nat, p: string -> bool)
    requires i < |keys|
    ensures Filter(keys[..i + 1], p) == Filter(keys[..i], p) + if p(keys[i]) then [keys[i]] else []
  {
    assert keys[..i + 1][..i] == keys[..i];
  }

  lemma FilterToBoundary(listing: seq<string>, before: seq<string>, page: seq<string>, j: nat, skip: Option<string>,
                         end: string, keep: string -> bool)
    requires Sorted(listing) && j < |page| && before + page <= listing && !Less(page[j], end)
    ensures var p := Wanted(skip, Some(end), keep); Filter(listing, p) == Filter(before, p) + Filter(page[..j], p)
  {
    var m := |before| + j;
    assert listing[m] == (before + page)[m] == page[j];
    assert listing[..m] == before + page[..j];
    NothingPastEnd(listing, m, skip, end, keep);
    FilterConcat(before, page[..j], Wanted(skip, Some(end), keep));
  }

  /**
    One page of the loop shared by the three adapters: markers and keys up to `skip` are passed
    over, and the first key at or past `end` stops the page.  `markersFirst` tells whether the
    marker test comes before the end test.
   */
  method ListPage(ghost listing: seq<string>, ghost before: seq<string>, page: seq<string>, skip: Option<string>,
                  end: Option<string>, markersFirst: bool, keep: string -> bool)
    returns (listed: seq<string>, hitBoundary: bool)
    requires Sorted(listing) && before + page <= listing
    ensures var p := Wanted(skip, end, keep);
            if hitBoundary then Filter(listing, p) == Filter(before, p) + listed else listed == Filter(page, p)
  {
    hide Less, LessEqual, Sorted, Filter;
    ghost var p := Wanted(skip, end, keep);
    listed, hitBoundary := [], false;
    FilterNone([], p);
    for j := 0 to |page|
      invariant listed == Filter(page[..j], p)
    {
      var key := page[j];
      FilterSnoc(page, j, p);
      if markersFirst && !IsFile(key) {
        continue;
      }
      if skip.Some? && LessEqual(key, skip.value) {
        continue;
      }
      if end.Some? && !Less(key, end.value) {
        FilterToBoundary(listing, before, page, j, skip, end.value, keep);
        return listed, true;
      }
      if IsFile(key) && keep(key) {
        listed := listed + [key];
      }
    }
    assert page[..|page|] == page;
  }

  /** All pages, until one hits the boundary: early stop loses nothing of a sorted listing. */
  method ListPages(pages: seq<seq<string>>, skip: Option<string>, end: Option<string>, markersFirst: bool,
                   keep: string -> bool) returns (listed: seq<string>)
    requires Sorted(Flatten(pages))
    ensures listed == Filter(Flatten(pages), Wanted(skip, end, keep))
  {
    hide Wanted, Flatten, Sorted, Filter;
    ghost var p := Wanted(skip, end, keep);
    listed := [];
    FlattenNothing(pages);
    FilterNone([], p);
    for i := 0 to |pages|
      invariant listed == Filter(Flatten(pages[..i]), p)
    {
      FlattenNext(pages, i);
      FlattenSplit(pages, i);
      FilterConcat(Flatten(pages[..i]), pages[i], p);
      var more, hitBoundary := ListPage(Flatten(pages), Flatten(pages[..i]), pages[i], skip, end, markersFirst, keep);
      listed := listed + more;
      if hitBoundary {
        return;
      }
    }
    assert pages[..|pages|] == pages;
  }

  // ----- the three adapters, over a sorted bucket

  lemma {:induction false} FilterSame(keys: seq<string>, p: string -> bool, q: string -> bool)
    requires forall i :: 0 <= i < |keys| ==> p(keys[i]) == q(keys[i])
    ensures Filter(keys, p) == Filter(keys, q)
  {
    if keys != [] {
      FilterSame(keys[..|keys| - 1], p, q);
    }
  }

  lemma {:induction false} FilterTwice(keys: seq<string>, p: string -> bool, q: string -> bool)
    ensures Filter(Filter(keys, p), q) == Filter(keys, (k: string) => p(k) && q(k))
  {
    if keys != [] {
      FilterTwice(keys[..|keys| - 1], p, q);
      FilterConcat(Filter(keys[..|keys| - 1], p), [keys[|keys| - 1]], q);
    }
  }

  lemma {:induction false} FilterMembers(keys: seq<string>, p: string -> bool)
    ensures forall k :: k in Filter(keys, p) ==> k in keys && p(k)
  {
    if keys != [] {
      FilterMembers(keys[..|keys| - 1], p);
    }
  }

  lemma {:induction false} FilterSorted(keys: seq<string>, p: string -> bool)
    requires Sorted(keys)
    ensures Sorted(Filter(keys, p))
  {
    if keys != [] {
      var n := |keys| - 1;
      FilterSorted(keys[..n], p);
      FilterMembers(keys[..n], p);
      var r := Filter(keys[..n], p);
      forall i | 0 <= i < |r| ensures LessEqual(r[i], keys[n]) {
        assert r[i] in keys[..n];
        var j :| 0 <= j < n && keys[..n][j] == r[i];
        assert keys[j] == r[i];
      }
    }
  }

  /** The keys a worker yields for a partition. */
  function Listed(spec: PartitionSpec, inclusive: bool, keep: string -> bool): string -> bool {
    (key: string) => IsFile(key) && Covers(spec, inclusive, key) && keep(key)
  }

  /** The keys the service itself sends for a request with a start and an end. */
  function Served(start: Option<string>, inclusive: bool, end: Option<string>): string -> bool {
    (key: string) => Covers(PartitionSpec(start, end, None), inclusive, key)
  }

  /** S3: the service skips to the keys after `StartAfter`; the loop stops at the end. */
  method ListFilesS3(ghost bucket: seq<string>, pages: seq<seq<string>>, spec: PartitionSpec, keep: string -> bool)
    returns (listed: seq<string>)
    requires Sorted(bucket) && Flatten(pages) == Filter(bucket, Served(spec.startAfter, false, None))
    ensures listed == Filter(bucket, Listed(spec, false, keep))
  {
    hide Sorted, Less, LessEqual, Flatten, IsFile;
    FilterSorted(bucket, Served(spec.startAfter, false, None));
    listed := ListPages(pages, None, Bound(spec.endBefore), false, keep);
    FilterTwice(bucket, Served(spec.startAfter, false, None), Wanted(None, Bound(spec.endBefore), keep));
    FilterSame(bucket, (k: string) => Served(spec.startAfter, false, None)(k) && Wanted(None, Bound(spec.endBefore), keep)(k),
               Listed(spec, false, keep));
  }

  lemma SkippedIffNotAfter(spec: PartitionSpec, keep: string -> bool, k: string)
    ensures Wanted(Bound(spec.startAfter), Bound(spec.endBefore), keep)(k) == Listed(spec, false, keep)(k)
  {
    var start := Bound(spec.startAfter);
    if start.Some? {
      Trichotomy(start.value, k);
      Trichotomy(k, start.value);
      assert LessEqual(k, start.value) <==> !Less(start.value, k);
    }
    assert BelowEnd(Bound(spec.endBefore), k) <==> match Bound(spec.endBefore) case None => true case Some(end) => Less(k, end);
    assert Covers(spec, false, k) <==> !(start.Some? && LessEqual(k, start.value)) && BelowEnd(Bound(spec.endBefore), k);
  }

  /** Azure: the service sends every blob; the loop skips and stops. */
  method ListFilesAzure(pages: seq<seq<string>>, spec: PartitionSpec, keep: string -> bool) returns (listed: seq<string>)
    requires Sorted(Flatten(pages))
    ensures listed == Filter(Flatten(pages), Listed(spec, false, keep))
  {
    hide *;
    listed := ListPages(pages, Bound(spec.startAfter), Bound(spec.endBefore), true, keep);
    var wanted := Wanted(Bound(spec.startAfter), Bound(spec.endBefore), keep);
    forall i | 0 <= i < |Flatten(pages)| ensures wanted(Flatten(pages)[i]) == Listed(spec, false, keep)(Flatten(pages)[i]) {
      SkippedIffNotAfter(spec, keep, Flatten(pages)[i]);
    }
    FilterSame(Flatten(pages), wanted, Listed(spec, false, keep));
  }

  /** GCS: the service applies both offsets, the start inclusively; the loop checks the end again. */
  method ListFilesGcs(ghost bucket: seq<string>, pages: seq<seq<string>>, spec: PartitionSpec, keep: string -> bool)
    returns (listed: seq<string>)
    requires Sorted(bucket) && Flatten(pages) == Filter(bucket, Served(spec.startAfter, true, spec.endBefore))
    ensures listed == Filter(bucket, Listed(spec, true, keep))
  {
    hide Sorted, Less, LessEqual, Flatten, IsFile;
    FilterSorted(bucket, Served(spec.startAfter, true, spec.endBefore));
    listed := ListPages(pages, None, Bound(spec.endBefore), true, keep);
    FilterTwice(bucket, Served(spec.startAfter, true, spec.endBefore), Wanted(None, Bound(spec.endBefore), keep));
    FilterSame(bucket, (k: string) => Served(spec.startAfter, true, spec.endBefore)(k) && Wanted(None, Bound(spec.endBefore), keep)(k),
               Listed(spec, true, keep));
  }
}
