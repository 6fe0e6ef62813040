/**
  The rows of the file inventory (`jobs/inventory.py`): what an inventory service behind a bounded
  LRU cache must answer, and what it records about the scans of a file.  The database row and
  the object in the session are one thing here; a new object gets its column defaults only when the
  session writes it out, which every query makes it do first.
 */
module Inventory {
  import opened Results

  /** The tracked part of a `FileInventory`; the two counters have no value before the row is written out. */
  datatype Row = Row(
    hash: string, size: int, modified: Option<int>, job: int, needsRescan: bool,
    scanCount: Option<nat>, changedCount: Option<nat>)

  datatype Scan = Scan(path: string, hash: string, size: int, modified: Option<int>, job: int)

  /** The rows, and the cached paths with the least recently used first. */
  datatype State = State(rows: map<string, Row>, recent: seq<string>)

  function WrittenRow(row: Row): Row {
    row.(scanCount := Some(if row.scanCount.Some? then row.scanCount.value else 1),
         changedCount := Some(if row.changedCount.Some? then row.changedCount.value else 0))
  }

  function Written(rows: map<string, Row>): map<string, Row> {
    map path | path in rows :: WrittenRow(rows[path])
  }

  function Without(paths: seq<string>, path: string): seq<string> {
    if paths == [] then []
    else if paths[0] == path then Without(paths[1..], path)
    else [paths[0]] + Without(paths[1..], path)
  }

  function LastOf(n: nat, paths: seq<string>): seq<string> {
    if |paths| <= n then paths else paths[|paths| - n..]
  }

  function Used(paths: seq<string>, path: string): seq<string> {
    Without(paths, path) + [path]
  }

  /** A lookup: a hit only moves the path, a miss is a query that writes out what is new. */
  function AfterLookup(limit: nat, s: State, path: string): State {
    if path in s.recent then s.(recent := Used(s.recent, path))
    else if path in s.rows then State(Written(s.rows), LastOf(limit, Used(s.recent, path)))
    else s.(rows := Written(s.rows))
  }

  /** A row that is not written out yet has no counters to add to. */
  predicate Refused(limit: nat, s: State, scan: Scan) {
    var found := AfterLookup(limit, s, scan.path);
    scan.path in found.rows &&
    (found.rows[scan.path].scanCount.None? ||
     (found.rows[scan.path].hash != scan.hash && found.rows[scan.path].changedCount.None?))
  }

  function NewRow(scan: Scan): Row {
    Row(scan.hash, scan.size, scan.modified, scan.job, false, None, None)
  }

  /** The assignments up to the first that raises. */
  function Rescanned(row: Row, scan: Scan): Row {
    if row.hash != scan.hash && row.changedCount.None? then row
    else
      var seen := row.(
        changedCount := if row.hash != scan.hash then Some(row.changedCount.value + 1) else row.changedCount,
        hash := scan.hash, size := scan.size, modified := scan.modified, job := scan.job);
      if row.scanCount.None? then seen else seen.(scanCount := Some(row.scanCount.value + 1), needsRescan := false)
  }

  function AfterScan(limit: nat, s: State, scan: Scan): State {
    var found := AfterLookup(limit, s, scan.path);
    if scan.path in found.rows then found.(rows := found.rows[scan.path := Rescanned(found.rows[scan.path], scan)])
    else State(found.rows[scan.path := NewRow(scan)], LastOf(limit, Used(found.recent, scan.path)))
  }

  /** Marks for a rescan every row that the given job has not seen. */
  function AfterMarking(s: State, job: int): State {
    var rows := Written(s.rows);
    s.(rows := map path | path in rows ::
         if rows[path].job != job && !rows[path].needsRescan then rows[path].(needsRescan := true) else rows[path])
  }

  datatype Reason =
    | FullScan | NewFile | FlaggedRescan | ContentChanged | ModifiedTime | SizeChanged | Same

  /** Whether and why a file must be scanned, given its row if it has one; an absent or empty hash is not compared. */
  function WhyScan(row: Option<Row>, size: int, modified: Option<int>, hash: Option<string>, force: bool): Reason {
    if force then FullScan
    else if row.None? then NewFile
    else if row.value.needsRescan then FlaggedRescan
    else if hash.Some? && hash.value != "" && row.value.hash != "" && hash.value != row.value.hash then ContentChanged
    else if modified.Some? && row.value.modified.Some? && modified.value > row.value.modified.value then ModifiedTime
    else if size != row.value.size then SizeChanged
    else Same
  }

  // ----- runs

  datatype Event =
    | Looked(path: string)
    | Scanned(scan: Scan)
    | Committed
    | Marked(job: int)

  function Next(limit: nat, s: State, event: Event): State {
    match event
    case Looked(path) => AfterLookup(limit, s, path)
    case Scanned(scan) => AfterScan(limit, s, scan)
    case Committed => s.(rows := Written(s.rows))
    case Marked(job) => AfterMarking(s, job)
  }

  function After(limit: nat, history: seq<Event>): State {
    if history == [] then State(map[], [])
    else Next(limit, After(limit, history[..|history| - 1]), history[|history| - 1])
  }

  predicate Fails(limit: nat, s: State, event: Event) {
    event.Scanned? && Refused(limit, s, event.scan)
  }

  // ----- the cache holds the most recently used tracked paths

  /** Every tracked path that was ever used, in the order of its latest use: a cache without a limit. */
  ghost function Recency(limit: nat, history: seq<Event>): seq<string> {
    if history == [] then []
    else
      var earlier, last := Recency(limit, history[..|history| - 1]), history[|history| - 1];
      var rows := After(limit, history).rows;
      match last
      case Looked(path) => if path in rows then Used(earlier, path) else earlier
      case Scanned(scan) => Used(earlier, scan.path)
      case Committed => earlier
      case Marked(_) => earlier
  }

  ghost predicate Distinct(paths: seq<string>) {
    forall i, j :: 0 <= i < j < |paths| ==> paths[i] != paths[j]
  }

  lemma {:induction false} WithoutAbsent(paths: seq<string>, path: string)
    requires path !in paths
    ensures Without(paths, path) == paths
  {
    if paths != [] {
      WithoutAbsent(paths[1..], path);
    }
  }

  lemma {:induction false} WithoutConcat(a: seq<string>, b: seq<string>, path: string)
    ensures Without(a + b, path) == Without(a, path) + Without(b, path)
  {
    if a == [] {
      assert a + b == b;
    } else {
      WithoutConcat(a[1..], b, path);
      var all := a + b;
      assert all != [] && all[0] == a[0] && all[1..] == a[1..] + b;
    }
  }

  lemma {:induction false} WithoutMembers(paths: seq<string>, path: string)
    requires Distinct(paths)
    ensures Distinct(Without(paths, path))
    ensures forall p :: p in Without(paths, path) <==> p in paths && p != path
    ensures |Without(paths, path)| == |paths| - (if path in paths then 1 else 0)
  {
    if paths != [] {
      WithoutMembers(paths[1..], path);
      var rest := Without(paths[1..], path);
      assert paths == [paths[0]] + paths[1..];
      assert paths[0] !in paths[1..] && paths[0] !in rest;
    }
  }

  lemma UsedMembers(paths: seq<string>, path: string)
    requires Distinct(paths)
    ensures Distinct(Used(paths, path))
    ensures forall p :: p in Used(paths, path) <==> p in paths || p == path
    ensures |Used(paths, path)| == |paths| + if path in paths then 0 else 1
  {
    WithoutMembers(paths, path);
  }

  lemma DistinctParts(a: seq<string>, b: seq<string>)
    requires Distinct(a + b)
    ensures Distinct(a) && Distinct(b)
    ensures forall p :: p in b ==> p !in a
  {
    var all := a + b;
    assert forall i :: 0 <= i < |a| ==> all[i] == a[i];
    assert forall i :: 0 <= i < |b| ==> all[|a| + i] == b[i];
  }

  /** The stack property of LRU: the bounded cache is the recent end of the unbounded one, and stays it. */
  lemma UsedInBoth(limit: nat, all: seq<string>, path: string)
    requires Distinct(all)
    ensures Distinct(LastOf(limit, all))
    ensures path in LastOf(limit, all) ==> Used(LastOf(limit, all), path) == LastOf(limit, Used(all, path))
    ensures path !in LastOf(limit, all) ==> LastOf(limit, Used(LastOf(limit, all), path)) == LastOf(limit, Used(all, path))
  {
    var kept := LastOf(limit, all);
    var gone := all[..|all| - |kept|];
    assert all == gone + kept;
    DistinctParts(gone, kept);
    UsedOfParts(gone, kept, path);
    if path in kept {
      UsedMembers(kept, path);
      hide Used, Distinct;
    } else if |kept| == limit {
      hide Distinct;
      WithoutAbsent(kept, path);
      assert Used(kept, path) == kept + [path];
      hide Without, Used;
      LastOfMore(limit, Without(gone, path), kept + [path]);
    } else {
      assert gone == [] && Without(gone, path) == [];
    }
  }

  lemma LastOfMore(limit: nat, a: seq<string>, b: seq<string>)
    requires |b| >= limit
    ensures LastOf(limit, a + b) == LastOf(limit, b)
  {
  }

  lemma UsedOfParts(gone: seq<string>, kept: seq<string>, path: string)
    ensures Used(gone + kept, path) == Without(gone, path) + Used(kept, path)
    ensures path !in gone ==> Without(gone, path) == gone
  {
    WithoutConcat(gone, kept, path);
    if path !in gone {
      WithoutAbsent(gone, path);
    }
    hide Without;
  }

  /** The cache is exactly the most recently used tracked paths, up to its limit, in order of recency. */
  lemma {:induction false} CacheIsMostRecent(limit: nat, history: seq<Event>)
    ensures var s, all := After(limit, history), Recency(limit, history);
            && s.recent == LastOf(limit, all)
            && Distinct(all)
            && (forall p :: p in all <==> p in s.rows)
            && |s.recent| <= limit
  {
    if history != [] {
      var init, last := history[..|history| - 1], history[|history| - 1];
      CacheIsMostRecent(limit, init);
      var s, all := After(limit, init), Recency(limit, init);
      assert Written(s.rows).Keys == s.rows.Keys;
      hide Without, Used, LastOf, Distinct;
      match last
      case Looked(path) =>
        UsedInBoth(limit, all, path);
        UsedMembers(all, path);
      case Scanned(scan) =>
        UsedInBoth(limit, all, scan.path);
        UsedMembers(all, scan.path);
      case Committed =>
      case Marked(_) =>
    }
  }

  // ----- the counters

  /** The content hashes of the scans of a path that were recorded. */
  ghost function Hashes(limit: nat, history: seq<Event>, path: string): seq<string> {
    if history == [] then []
    else
      var init, last := history[..|history| - 1], history[|history| - 1];
      Hashes(limit, init, path) +
      if last.Scanned? && last.scan.path == path && !Refused(limit, After(limit, init), last.scan)
      then [last.scan.hash] else []
  }

  function Differences(hashes: seq<string>): nat {
    if |hashes| < 2 then 0
    else Differences(hashes[..|hashes| - 1]) + if hashes[|hashes| - 2] != hashes[|hashes| - 1] then 1 else 0
  }

  /** What a row says about the recorded scans of its file. */
  ghost predicate Tells(row: Row, hashes: seq<string>) {
    && hashes != []
    && row.hash == hashes[|hashes| - 1]
    && WrittenRow(row).scanCount == Some(|hashes|)
    && WrittenRow(row).changedCount == Some(Differences(hashes))
    && (row.scanCount.None? <==> row.changedCount.None?)
  }

  ghost predicate RowTells(s: State, path: string, hashes: seq<string>) {
    && (path in s.rows <==> hashes != [])
    && (path in s.rows ==> Tells(s.rows[path], hashes))
  }

  lemma ScanTells(limit: nat, s: State, scan: Scan, path: string, hashes: seq<string>)
    requires RowTells(s, path, hashes)
    ensures RowTells(AfterScan(limit, s, scan), path,
              hashes + if scan.path == path && !Refused(limit, s, scan) then [scan.hash] else [])
  {
    var found := AfterLookup(limit, s, scan.path);
    if scan.path == path {
      if path in found.rows {
      } else {
        assert Tells(NewRow(scan), [scan.hash]);
      }
    }
    hide AfterLookup, Tells, Rescanned, Used, LastOf;
    assert !Refused(limit, s, scan) || scan.path in found.rows;
    assert hashes + [] == hashes && [] + [scan.hash] == [scan.hash];
  }

  /**
    Across evictions and reloads: a row exists exactly when a scan of its path was recorded, it has the
    hash of the last one, and it has counted them and the adjacent ones with differing hashes.
   */
  lemma {:induction false} ChangesAreCounted(limit: nat, history: seq<Event>, path: string)
    ensures RowTells(After(limit, history), path, Hashes(limit, history, path))
  {
    if history != [] {
      var init, last := history[..|history| - 1], history[|history| - 1];
      ChangesAreCounted(limit, init, path);
      var s, hashes := After(limit, init), Hashes(limit, init, path);
      hide RowTells, AfterLookup, AfterScan, AfterMarking, Refused, Written;
      match last
      case Looked(other) =>
        assert hashes + [] == hashes;
      case Scanned(scan) => ScanTells(limit, s, scan, path, hashes);
      case Committed =>
        assert hashes + [] == hashes;
      case Marked(job) =>
        assert hashes + [] == hashes;
    }
  }

  // ----- which scans are refused

  /** Whether an event makes the session query the database. */
  predicate Queries(s: State, event: Event) {
    match event
    case Looked(path) => path !in s.recent
    case Scanned(scan) => scan.path !in s.recent
    case Committed => true
    case Marked(_) => true
  }

  /** The path whose row was created by the latest query, if that query was for a new file. */
  ghost function LastCreated(limit: nat, history: seq<Event>): Option<string> {
    if history == [] then None
    else
      var init, last := history[..|history| - 1], history[|history| - 1];
      var s := After(limit, init);
      if !Queries(s, last) then LastCreated(limit, init)
      else if last.Scanned? && last.scan.path !in s.rows then Some(last.scan.path)
      else None
  }

  ghost predicate OnlyUnwritten(s: State, path: Option<string>) {
    forall p :: p in s.rows ==>
      && (s.rows[p].scanCount.None? <==> path == Some(p))
      && (s.rows[p].changedCount.None? <==> path == Some(p))
  }

  lemma OnlyUnwrittenStep(limit: nat, s: State, event: Event, path: Option<string>)
    requires OnlyUnwritten(s, path) && forall p :: p in s.recent ==> p in s.rows
    ensures OnlyUnwritten(Next(limit, s, event),
              if !Queries(s, event) then path
              else if event.Scanned? && event.scan.path !in s.rows then Some(event.scan.path)
              else None)
  {
    hide Used, LastOf;
  }

  lemma CreatedIsCached(limit: nat, s: State, event: Event, path: string)
    requires limit > 0 && Distinct(s.recent) && forall p :: p in s.recent ==> p in s.rows
    requires if Queries(s, event) then event.Scanned? && event.scan.path == path && path !in s.rows else path in s.recent
    ensures path in Next(limit, s, event).recent
  {
    if !Queries(s, event) {
      UsedMembers(s.recent, if event.Looked? then event.path else event.scan.path);
    }
    hide Without, Distinct, Rescanned;
    if Queries(s, event) {
      var used := Used(AfterLookup(limit, s, path).recent, path);
      assert used[|used| - 1] == path && LastOf(limit, used)[|LastOf(limit, used)| - 1] == path;
    }
  }

  lemma {:induction false} UnwrittenIsLastCreated(limit: nat, history: seq<Event>)
    ensures OnlyUnwritten(After(limit, history), LastCreated(limit, history))
    ensures LastCreated(limit, history).Some? ==>
              && LastCreated(limit, history).value in After(limit, history).rows
              && (limit > 0 ==> LastCreated(limit, history).value in After(limit, history).recent)
  {
    if history != [] {
      var init, last := history[..|history| - 1], history[|history| - 1];
      UnwrittenIsLastCreated(limit, init);
      CacheIsMostRecent(limit, init);
      CacheIsMostRecent(limit, history);
      var s := After(limit, init);
      UsedInBoth(limit, Recency(limit, init), "");
      hide Next, Written, OnlyUnwritten, Without, Used, Distinct, Recency;
      OnlyUnwrittenStep(limit, s, last, LastCreated(limit, init));
      if LastCreated(limit, history).Some? {
        var path := LastCreated(limit, history).value;
        if limit > 0 {
          CreatedIsCached(limit, s, last, path);
        }
      }
    }
  }

  /**
    A scan cannot be recorded exactly when the row of its file was created by the latest query:
    two scans of a new file with nothing but cache hits between them.
   */
  lemma RefusedIff(limit: nat, history: seq<Event>, scan: Scan)
    ensures Refused(limit, After(limit, history), scan) <==> limit > 0 && LastCreated(limit, history) == Some(scan.path)
  {
    CacheIsMostRecent(limit, history);
    UnwrittenIsLastCreated(limit, history);
  }

  /** The shortest such run: with any cache, the second scan of a new file right after the first is refused. */
  lemma SecondScanIsRefused(limit: nat, first: Scan, second: Scan)
    requires limit > 0 && first.path == second.path
    ensures Refused(limit, After(limit, [Scanned(first)]), second)
    ensures !Refused(limit, After(limit, [Scanned(first), Committed]), second)
  {
    var history := [Scanned(first)];
    assert history[..0] == [] && After(limit, []) == State(map[], []);
    assert LastCreated(limit, history) == Some(first.path);
    RefusedIff(limit, history, second);
    var more := [Scanned(first), Committed];
    assert more[..1] == history;
    assert LastCreated(limit, more) == None;
    RefusedIff(limit, more, second);
  }

  // ----- the cache is transparent

  ghost predicate NothingFails(limit: nat, history: seq<Event>) {
    forall i :: 0 <= i < |history| ==> !Fails(limit, After(limit, history[..i]), history[i])
  }

  lemma SameWritten(a: map<string, Row>, b: map<string, Row>, path: string)
    requires Written(a) == Written(b)
    ensures path in a <==> path in b
    ensures path in a ==> WrittenRow(a[path]) == WrittenRow(b[path])
  {
    assert path in a <==> path in Written(a);
    assert path in b <==> path in Written(b);
    if path in a {
      assert Written(a)[path] == WrittenRow(a[path]) && Written(b)[path] == WrittenRow(b[path]);
    }
  }

  lemma WrittenUpdate(rows: map<string, Row>, path: string, row: Row)
    ensures Written(rows[path := row]) == Written(rows)[path := WrittenRow(row)]
  {
  }

  lemma LookupWritten(limit: nat, s: State, path: string)
    ensures Written(AfterLookup(limit, s, path).rows) == Written(s.rows)
  {
  }

  /** The rows after a recorded scan, with the cache out of sight. */
  function Recorded(rows: map<string, Row>, scan: Scan): map<string, Row> {
    rows[scan.path := if scan.path in rows then Rescanned(rows[scan.path], scan) else WrittenRow(NewRow(scan))]
  }

  lemma ScanWritten(limit: nat, s: State, scan: Scan)
    requires !Refused(limit, s, scan)
    requires scan.path in s.rows ==> (s.rows[scan.path].scanCount.None? <==> s.rows[scan.path].changedCount.None?)
    ensures Written(AfterScan(limit, s, scan).rows) == Recorded(Written(s.rows), scan)
  {
    var found := AfterLookup(limit, s, scan.path);
    LookupWritten(limit, s, scan.path);
    SameWritten(found.rows, s.rows, scan.path);
    if scan.path in found.rows {
      var row := found.rows[scan.path];
      assert row.scanCount.Some? && row.changedCount.Some?;
      WrittenUpdate(found.rows, scan.path, Rescanned(row, scan));
      assert Written(found.rows)[scan.path] == WrittenRow(row);
    } else {
      assert scan.path !in Written(s.rows);
      WrittenUpdate(found.rows, scan.path, NewRow(scan));
    }
  }

  lemma MarkingWritten(s: State, t: State, job: int)
    requires Written(s.rows) == Written(t.rows)
    ensures Written(AfterMarking(s, job).rows) == Written(AfterMarking(t, job).rows)
  {
  }

  /** Without a cache every lookup queries, and no scan is ever refused. */
  lemma NothingFailsUncached(history: seq<Event>)
    ensures NothingFails(0, history)
  {
    forall i | 0 <= i < |history|
      ensures !Fails(0, After(0, history[..i]), history[i])
    {
      if history[i].Scanned? {
        RefusedIff(0, history[..i], history[i].scan);
      }
    }
  }

  /** The bounded cache is transparent: as long as no scan is refused, the rows are those of an uncached service. */
  lemma {:induction false} CacheIsTransparent(limit: nat, history: seq<Event>)
    requires NothingFails(limit, history)
    ensures Written(After(limit, history).rows) == Written(After(0, history).rows)
  {
    if history != [] {
      var init, last := history[..|history| - 1], history[|history| - 1];
      assert NothingFails(limit, init) by {
        forall i | 0 <= i < |init|
          ensures !Fails(limit, After(limit, init[..i]), init[i])
        {
          assert init[..i] == history[..i] && init[i] == history[i];
        }
      }
      CacheIsTransparent(limit, init);
      NothingFailsUncached(history);
      assert !Fails(limit, After(limit, init), last) && !Fails(0, After(0, init), last);
      StepIsTransparent(limit, init, last);
    }
  }

  lemma StepIsTransparent(limit: nat, history: seq<Event>, event: Event)
    requires Written(After(limit, history).rows) == Written(After(0, history).rows)
    requires !Fails(limit, After(limit, history), event) && !Fails(0, After(0, history), event)
    ensures Written(Next(limit, After(limit, history), event).rows) == Written(Next(0, After(0, history), event).rows)
  {
    var s, t := After(limit, history), After(0, history);
    UnwrittenIsLastCreated(limit, history);
    UnwrittenIsLastCreated(0, history);
    hide After, Written, LastCreated;
    match event
    case Looked(path) =>
      LookupWritten(limit, s, path);
      LookupWritten(0, t, path);
    case Scanned(scan) =>
      ScanWritten(limit, s, scan);
      ScanWritten(0, t, scan);
    case Committed =>
    case Marked(job) =>
      MarkingWritten(s, t, job);
  }

  // ----- a scanned file is left alone until it changes

  ghost predicate LeavesAlone(event: Event, path: string, job: int) {
    && (event.Scanned? ==> event.scan.path != path)
    && (event.Marked? ==> event.job == job)
  }

  lemma LeftAlone(limit: nat, s: State, event: Event, path: string)
    requires path in s.rows && LeavesAlone(event, path, s.rows[path].job)
    ensures path in Next(limit, s, event).rows
    ensures WrittenRow(Next(limit, s, event).rows[path]) == WrittenRow(s.rows[path])
  {
    hide Used, LastOf, Rescanned;
  }

  lemma {:induction false} LeftAloneInRun(limit: nat, history: seq<Event>, more: seq<Event>, path: string)
    requires path in After(limit, history).rows
    requires forall i :: 0 <= i < |more| ==> LeavesAlone(more[i], path, After(limit, history).rows[path].job)
    ensures path in After(limit, history + more).rows
    ensures WrittenRow(After(limit, history + more).rows[path]) == WrittenRow(After(limit, history).rows[path])
  {
    if more == [] {
      assert history + more == history;
    } else {
      var init := more[..|more| - 1];
      LeftAloneInRun(limit, history, init, path);
      assert (history + more)[..|history + more| - 1] == history + init;
      assert (history + more)[|history + more| - 1] == more[|more| - 1];
      LeftAlone(limit, After(limit, history + init), more[|more| - 1], path);
      hide Next, LeavesAlone, WrittenRow;
    }
  }

  /**
    After a recorded scan, and any later lookups, evictions, commits and scans of other files, the file
    is due for another scan exactly when its hash differs, it is newer or its size differs.
   */
  lemma DueAgainIff(limit: nat, history: seq<Event>, scan: Scan, more: seq<Event>,
                    size: int, modified: Option<int>, hash: Option<string>)
    requires !Refused(limit, After(limit, history), scan)
    requires forall i :: 0 <= i < |more| ==> LeavesAlone(more[i], scan.path, scan.job)
    ensures var rows := After(limit, history + [Scanned(scan)] + more).rows;
            && scan.path in rows
            && (WhyScan(Some(rows[scan.path]), size, modified, hash, false) != Same <==>
                || (hash.Some? && hash.value != "" && scan.hash != "" && hash.value != scan.hash)
                || (modified.Some? && scan.modified.Some? && modified.value > scan.modified.value)
                || size != scan.size)
  {
    var upTo := history + [Scanned(scan)];
    assert upTo[..|upTo| - 1] == history;
    var s := After(limit, upTo);
    assert scan.path in s.rows && s.rows[scan.path].job == scan.job && !s.rows[scan.path].needsRescan;
    LeftAloneInRun(limit, upTo, more, scan.path);
  }
}
