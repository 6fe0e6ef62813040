/**
  The incremental sync of the directory index (`jobs/delta_sync.py`) and the bootstrap
  (`jobs/index.py`): loops over a walk that collect rows into batches and flush them.
 */
module DeltaSync {
  import opened Results
  import opened DirectoryTree

  // ----- what a walk changes

  /** `abs(live_mtime - existing_mtime) < 1.0`, both being known. */
  predicate Untouched(row: Row, f: Folder) {
    && row.columns.modified.Some? && f.columns.modified.Some?
    && -1.0 < f.columns.modified.value - row.columns.modified.value < 1.0
  }

  /** The row a walked folder leaves, or None if the stored one stays as it is. */
  function RowAfter(t: Table, target: Target, f: Folder, id: Id): Option<Row> {
    var k := Key(target, f.path);
    if k !in t then Some(NewRow(id, f))
    else if Untouched(t[k], f) then None
    else Some(Overwritten(t[k], f.columns))
  }

  /** All changes a walk makes, by key. */
  function Changes(t: Table, target: Target, walk: seq<Folder>, ids: seq<Id>): Table
    requires |walk| == |ids|
  {
    if walk == [] then map[]
    else
      var n := |walk| - 1;
      var init := Changes(t, target, walk[..n], ids[..n]);
      match RowAfter(t, target, walk[n], ids[n])
      case None => init
      case Some(row) => init[Key(target, walk[n].path) := row]
  }

  ghost predicate DistinctPaths(walk: seq<Folder>) {
    forall i, j :: 0 <= i < j < |walk| ==> walk[i].path != walk[j].path
  }

  /** The identifiers drawn for the walked folders are new, each of them. */
  ghost predicate NewIds(t: Table, ids: seq<Id>) {
    && (forall i, j :: 0 <= i < j < |ids| ==> ids[i] != ids[j])
    && (forall i :: 0 <= i < |ids| ==> IdFree(t, ids[i]))
  }

  function WalkedPaths(walk: seq<Folder>): set<string> {
    set i | 0 <= i < |walk| :: walk[i].path
  }

  function StoredPaths(t: Table, target: Target): set<string> {
    set k | k in t && k.target == target :: k.path
  }

  /** Key by key, what `Changes` says. */
  lemma {:induction false} ChangesAt(t: Table, target: Target, walk: seq<Folder>, ids: seq<Id>)
    requires |walk| == |ids| && DistinctPaths(walk)
    ensures var c := Changes(t, target, walk, ids);
            && (forall k :: k in c ==> k.target == target && k.path in WalkedPaths(walk))
            && (forall i :: 0 <= i < |walk| ==>
                  var k := Key(target, walk[i].path);
                  match RowAfter(t, target, walk[i], ids[i])
                  case None => k !in c
                  case Some(row) => k in c && c[k] == row)
  {
    hide RowAfter;
    if walk != [] {
      var n := |walk| - 1;
      ChangesAt(t, target, walk[..n], ids[..n]);
      forall k | k in Changes(t, target, walk, ids) ensures k.target == target && k.path in WalkedPaths(walk) {
        if k in Changes(t, target, walk[..n], ids[..n]) {
          var i :| 0 <= i < n && walk[..n][i].path == k.path;
          assert walk[i].path == k.path;
        }
      }
      forall i | 0 <= i < |walk|
        ensures match RowAfter(t, target, walk[i], ids[i])
                case None => Key(target, walk[i].path) !in Changes(t, target, walk, ids)
                case Some(row) => Key(target, walk[i].path) in Changes(t, target, walk, ids) &&
                                  Changes(t, target, walk, ids)[Key(target, walk[i].path)] == row
      {
        if i < n {
          assert walk[..n][i] == walk[i] && ids[..n][i] == ids[i];
        } else {
          PathIsNew(walk, n);
        }
      }
    }
  }

  lemma PathIsNew(walk: seq<Folder>, n: nat)
    requires DistinctPaths(walk) && n < |walk|
    ensures walk[n].path !in WalkedPaths(walk[..n])
  {
    assert forall j :: 0 <= j < n ==> walk[..n][j].path != walk[n].path;
  }

  lemma WalkedPathsNext(walk: seq<Folder>, n: nat)
    requires n < |walk|
    ensures WalkedPaths(walk[..n + 1]) == WalkedPaths(walk[..n]) + {walk[n].path}
  {
    forall p ensures p in WalkedPaths(walk[..n + 1]) <==> p in WalkedPaths(walk[..n]) + {walk[n].path} {
      if p in WalkedPaths(walk[..n]) {
        var i :| 0 <= i < n && walk[..n][i].path == p;
        assert walk[..n + 1][i].path == p;
      }
      assert walk[..n + 1][n].path == walk[n].path;
    }
  }

  // ----- what a walk counts

  /** How many walked folders are not stored, are stored and changed, and are stored and untouched. */
  function NewFolders(t: Table, target: Target, walk: seq<Folder>): nat {
    if walk == [] then 0
    else
      var f := walk[|walk| - 1];
      NewFolders(t, target, walk[..|walk| - 1]) + if Key(target, f.path) !in t then 1 else 0
  }

  function ChangedFolders(t: Table, target: Target, walk: seq<Folder>): nat {
    if walk == [] then 0
    else
      var f := walk[|walk| - 1];
      var k := Key(target, f.path);
      ChangedFolders(t, target, walk[..|walk| - 1]) + if k in t && !Untouched(t[k], f) then 1 else 0
  }

  function UntouchedFolders(t: Table, target: Target, walk: seq<Folder>): nat {
    if walk == [] then 0
    else
      var f := walk[|walk| - 1];
      var k := Key(target, f.path);
      UntouchedFolders(t, target, walk[..|walk| - 1]) + if k in t && Untouched(t[k], f) then 1 else 0
  }

  lemma CountNext(t: Table, target: Target, walk: seq<Folder>, n: nat)
    requires n < |walk|
    ensures var k := Key(target, walk[n].path);
            && NewFolders(t, target, walk[..n + 1]) == NewFolders(t, target, walk[..n]) + (if k !in t then 1 else 0)
            && ChangedFolders(t, target, walk[..n + 1]) ==
               ChangedFolders(t, target, walk[..n]) + (if k in t && !Untouched(t[k], walk[n]) then 1 else 0)
            && UntouchedFolders(t, target, walk[..n + 1]) ==
               UntouchedFolders(t, target, walk[..n]) + (if k in t && Untouched(t[k], walk[n]) then 1 else 0)
  {
    assert walk[..n + 1][..n] == walk[..n];
  }

  /** The paths seen are as many as the folders walked, and each folder is counted once. */
  lemma {:induction false} CountsAddUp(t: Table, target: Target, walk: seq<Folder>)
    requires DistinctPaths(walk)
    ensures NewFolders(t, target, walk) + ChangedFolders(t, target, walk) + UntouchedFolders(t, target, walk)
         == |WalkedPaths(walk)| == |walk|
  {
    if walk == [] {
      assert WalkedPaths(walk) == {};
    } else {
      var n := |walk| - 1;
      CountsAddUp(t, target, walk[..n]);
      PathIsNew(walk, n);
      WalkedPathsNext(walk, n);
      assert walk[..n + 1] == walk;
    }
  }

  // ----- sums of tables

  lemma PlusAssociative(a: Table, b: Table, c: Table)
    ensures a + b + c == a + (b + c)
  {
  }

  lemma PlusSwap(d: Table, a: Table, p: Table)
    requires a.Keys !! p.Keys
    ensures d + a + p == d + p + a
  {
  }

  lemma PlusPut(a: Table, b: Table, k: Key, row: Row)
    ensures a + b[k := row] == (a + b)[k := row]
    ensures k !in b ==> a[k := row] + b == (a + b)[k := row]
  {
  }

  lemma PlusNothing(a: Table)
    ensures a + map[] == a
  {
  }

  // ----- flushing batches

  /** The rows a batch of insertions adds. */
  function Inserted(target: Target, batch: seq<Insertion>): Table {
    if batch == [] then map[]
    else
      var last := batch[|batch| - 1];
      Inserted(target, batch[..|batch| - 1])[Key(target, last.folder.path) := NewRow(last.id, last.folder)]
  }

  /** The batch of insertions `batch` stands for the rows `adding`, all at different paths. */
  ghost predicate BatchOf(target: Target, batch: seq<Insertion>, adding: Table) {
    && adding == Inserted(target, batch)
    && (forall i, j :: 0 <= i < j < |batch| ==> batch[i].folder.path != batch[j].folder.path)
    && (forall i :: 0 <= i < |batch| ==> Key(target, batch[i].folder.path) in adding)
  }

  lemma BatchOfNone(target: Target)
    ensures BatchOf(target, [], map[])
  {
  }

  lemma BatchOfMore(target: Target, batch: seq<Insertion>, adding: Table, one: Insertion)
    requires BatchOf(target, batch, adding) && Key(target, one.folder.path) !in adding
    ensures BatchOf(target, batch + [one], adding[Key(target, one.folder.path) := NewRow(one.id, one.folder)])
  {
    var longer, k := batch + [one], Key(target, one.folder.path);
    var more := adding[k := NewRow(one.id, one.folder)];
    assert longer[..|batch|] == batch;
    assert more == Inserted(target, longer);
    hide Inserted;
    forall i | 0 <= i < |longer| ensures Key(target, longer[i].folder.path) in more {
      assert i < |batch| ==> longer[i] == batch[i];
    }
    forall i, j | 0 <= i < j < |longer| ensures longer[i].folder.path != longer[j].folder.path {
      assert longer[i] == batch[i] && Key(target, batch[i].folder.path) in adding;
      assert j < |batch| ==> longer[j] == batch[j];
    }
  }

  lemma BatchOfLess(target: Target, batch: seq<Insertion>, adding: Table)
    requires batch != [] && BatchOf(target, batch, adding)
    ensures BatchOf(target, batch[..|batch| - 1], Inserted(target, batch[..|batch| - 1]))
    ensures Key(target, batch[|batch| - 1].folder.path) !in Inserted(target, batch[..|batch| - 1])
  {
    var init, last := batch[..|batch| - 1], batch[|batch| - 1];
    InsertedKeys(target, init);
    assert forall i :: 0 <= i < |init| ==> init[i].folder.path != last.folder.path;
  }

  lemma {:induction false} InsertedKeys(target: Target, batch: seq<Insertion>)
    ensures Inserted(target, batch).Keys == set i | 0 <= i < |batch| :: Key(target, batch[i].folder.path)
  {
    if batch != [] {
      InsertedKeys(target, batch[..|batch| - 1]);
    }
  }

  /** Inserting rows whose paths are not stored just adds them. */
  lemma {:induction false} UpsertAdds(t: Table, target: Target, batch: seq<Insertion>, adding: Table, clearHash: bool)
    requires BatchOf(target, batch, adding) && adding.Keys !! t.Keys
    ensures Upserted(t, target, batch, clearHash) == t + adding
  {
    if batch == [] {
      PlusNothing(t);
    } else {
      var init, last := batch[..|batch| - 1], batch[|batch| - 1];
      BatchOfLess(target, batch, adding);
      var k := Key(target, last.folder.path);
      assert Inserted(target, init).Keys <= adding.Keys && k in adding;
      UpsertAdds(t, target, init, Inserted(target, init), clearHash);
      PlusPut(t, Inserted(target, init), k, NewRow(last.id, last.folder));
    }
  }

  /** The batch of updates `batch` stands for the rows `pending` of the table `t` loaded at the start. */
  ghost predicate StandsFor(t: Table, batch: seq<Change>, pending: Table) {
    && pending.Keys <= t.Keys
    && (forall id :: IdFree(t, id) ==> ChangeFor(batch, id) == None)
    && (forall k :: k in t ==>
          match ChangeFor(batch, t[k].id)
          case None => k !in pending
          case Some(columns) => k in pending && pending[k] == Overwritten(t[k], columns))
  }

  /** The rows of `done` are rows of `t`, overwritten, or rows with new identifiers. */
  ghost predicate Descends(t: Table, done: Table) {
    forall k :: k in done ==> if k in t then done[k].id == t[k].id else IdFree(t, done[k].id)
  }

  lemma UpdateAdds(t: Table, done: Table, batch: seq<Change>, pending: Table)
    requires StandsFor(t, batch, pending) && Descends(t, done) && pending.Keys !! done.Keys
    ensures Updated(t + done, batch) == t + done + pending
  {
  }

  lemma StandsForMore(t: Table, batch: seq<Change>, pending: Table, k: Key, columns: Columns)
    requires UniqueIds(t) && StandsFor(t, batch, pending) && k in t && k !in pending
    ensures StandsFor(t, batch + [Change(t[k].id, columns)], pending[k := Overwritten(t[k], columns)])
  {
    var longer := batch + [Change(t[k].id, columns)];
    assert longer[..|batch|] == batch;
  }

  // ----- the sync loop

  /** The batches of the loop, and the rows they stand for. */
  datatype Batches = Batches(done: Table, inserts: seq<Insertion>, adding: Table, updates: seq<Change>, pending: Table)

  ghost predicate AllNew(t: Table, adding: Table) {
    forall k :: k in adding ==> k !in t && IdFree(t, adding[k].id)
  }

  /**
    After `n` folders: the table is the one loaded at the start with `done` applied, and `done`
    together with the rows of the two batches makes up the changes of the folders seen.
   */
  ghost predicate Progress(t: Table, target: Target, walk: seq<Folder>, ids: seq<Id>, n: nat, rows: Table, b: Batches)
    requires n <= |walk| == |ids|
  {
    && rows == t + b.done && Descends(t, b.done)
    && b.done + b.adding + b.pending == Changes(t, target, walk[..n], ids[..n])
    && b.adding.Keys !! b.done.Keys && b.pending.Keys !! b.done.Keys
    && AllNew(t, b.adding) && BatchOf(target, b.inserts, b.adding)
    && b.pending.Keys <= t.Keys && StandsFor(t, b.updates, b.pending)
  }

  lemma ChangesNext(t: Table, target: Target, walk: seq<Folder>, ids: seq<Id>, n: nat)
    requires n < |walk| == |ids| && DistinctPaths(walk)
    ensures var k := Key(target, walk[n].path); var c := Changes(t, target, walk[..n], ids[..n]);
            k !in c && Changes(t, target, walk[..n + 1], ids[..n + 1]) ==
                       match RowAfter(t, target, walk[n], ids[n]) case None => c case Some(row) => c[k := row]
  {
    assert walk[..n + 1][..n] == walk[..n] && ids[..n + 1][..n] == ids[..n];
    ChangesAt(t, target, walk[..n], ids[..n]);
    PathIsNew(walk, n);
  }

  lemma AddSkip(t: Table, target: Target, walk: seq<Folder>, ids: seq<Id>, n: nat, rows: Table, b: Batches)
    requires n < |walk| == |ids| && DistinctPaths(walk) && Progress(t, target, walk, ids, n, rows, b)
    requires RowAfter(t, target, walk[n], ids[n]) == None
    ensures Progress(t, target, walk, ids, n + 1, rows, b)
  {
    ChangesNext(t, target, walk, ids, n);
  }

  lemma AllNewMore(t: Table, adding: Table, k: Key, row: Row)
    requires AllNew(t, adding) && k !in t && IdFree(t, row.id)
    ensures AllNew(t, adding[k := row])
  {
  }

  lemma AddInsert(t: Table, target: Target, walk: seq<Folder>, ids: seq<Id>, n: nat, rows: Table, b: Batches)
    requires n < |walk| == |ids| && DistinctPaths(walk) && IdFree(t, ids[n]) && Progress(t, target, walk, ids, n, rows, b)
    requires Key(target, walk[n].path) !in t
    ensures Progress(t, target, walk, ids, n + 1, rows,
                     b.(inserts := b.inserts + [Insertion(ids[n], walk[n])],
                        adding := b.adding[Key(target, walk[n].path) := NewRow(ids[n], walk[n])]))
  {
    hide Changes, StandsFor, Descends, BatchOf, AllNew, IdFree;
    var k, row := Key(target, walk[n].path), NewRow(ids[n], walk[n]);
    ChangesNext(t, target, walk, ids, n);
    assert k !in b.done && k !in b.adding && k !in b.pending by {
      assert k !in b.done + b.adding + b.pending;
    }
    BatchOfMore(target, b.inserts, b.adding, Insertion(ids[n], walk[n]));
    AllNewMore(t, b.adding, k, row);
    PlusPut(b.done, b.adding, k, row);
    PlusPut(b.done + b.adding, b.pending, k, row);
  }

  lemma AddUpdate(t: Table, target: Target, walk: seq<Folder>, ids: seq<Id>, n: nat, rows: Table, b: Batches)
    requires n < |walk| == |ids| && DistinctPaths(walk) && UniqueIds(t) && Progress(t, target, walk, ids, n, rows, b)
    requires var k := Key(target, walk[n].path); k in t && !Untouched(t[k], walk[n])
    ensures var k := Key(target, walk[n].path);
            Progress(t, target, walk, ids, n + 1, rows,
                     b.(updates := b.updates + [Change(t[k].id, walk[n].columns)],
                        pending := b.pending[k := Overwritten(t[k], walk[n].columns)]))
  {
    hide Changes, StandsFor, Descends, BatchOf, AllNew, UniqueIds;
    var k := Key(target, walk[n].path);
    ChangesNext(t, target, walk, ids, n);
    assert k !in b.done && k !in b.adding && k !in b.pending by {
      assert k !in b.done + b.adding + b.pending;
    }
    StandsForMore(t, b.updates, b.pending, k, walk[n].columns);
    PlusPut(b.done + b.adding, b.pending, k, Overwritten(t[k], walk[n].columns));
  }

  lemma DescendsMore(t: Table, done: Table, adding: Table, pending: Table, updates: seq<Change>)
    requires Descends(t, done) && StandsFor(t, updates, pending)
    ensures AllNew(t, adding) ==> Descends(t, done + adding)
    ensures Descends(t, done + pending)
    ensures StandsFor(t, [], map[])
  {
  }

  lemma FlushInserts(t: Table, target: Target, walk: seq<Folder>, ids: seq<Id>, n: nat, rows: Table, b: Batches)
    requires n <= |walk| == |ids| && Progress(t, target, walk, ids, n, rows, b)
    ensures Progress(t, target, walk, ids, n, Upserted(rows, target, b.inserts, true),
                     b.(done := b.done + b.adding, inserts := [], adding := map[]))
  {
    hide Changes, StandsFor, Descends, BatchOf, Upserted;
    UpsertAdds(rows, target, b.inserts, b.adding, true);
    PlusAssociative(t, b.done, b.adding);
    PlusNothing(b.done + b.adding);
    BatchOfNone(target);
    DescendsMore(t, b.done, b.adding, b.pending, b.updates);
  }

  lemma FlushUpdates(t: Table, target: Target, walk: seq<Folder>, ids: seq<Id>, n: nat, rows: Table, b: Batches)
    requires n <= |walk| == |ids| && Progress(t, target, walk, ids, n, rows, b)
    ensures Progress(t, target, walk, ids, n, Updated(rows, b.updates),
                     b.(done := b.done + b.pending, updates := [], pending := map[]))
  {
    hide Changes, Updated, StandsFor, Descends, BatchOf;
    assert b.adding.Keys !! b.pending.Keys;
    UpdateAdds(t, b.done, b.updates, b.pending);
    PlusAssociative(t, b.done, b.pending);
    PlusSwap(b.done, b.adding, b.pending);
    PlusNothing(b.done + b.pending + b.adding);
    DescendsMore(t, b.done, b.adding, b.pending, b.updates);
  }

  // ----- the syncs

  datatype SyncResult = SyncResult(inserted: nat, updated: nat, untouched: nat, totalDirs: nat)

  /** What a sync reports: the folders by what happens to them, and the paths seen. */
  function Counted(t: Table, target: Target, walk: seq<Folder>): SyncResult {
    SyncResult(NewFolders(t, target, walk), ChangedFolders(t, target, walk), UntouchedFolders(t, target, walk), |WalkedPaths(walk)|)
  }

  lemma NothingCounted(t: Table, target: Target)
    ensures NewFolders(t, target, []) == ChangedFolders(t, target, []) == UntouchedFolders(t, target, []) == 0
  {
  }

  /** The table a delta sync leaves behind. */
  ghost function Synced(t: Table, target: Target, walk: seq<Folder>, ids: seq<Id>): Table
    requires |walk| == |ids| && Forest(t + Changes(t, target, walk, ids))
  {
    var kept := Deleted(t + Changes(t, target, walk, ids), target, StoredPaths(t, target) - WalkedPaths(walk));
    if WalkedPaths(walk) <= StoredPaths(t, target) then kept else Resolved(kept, target)
  }

  class DirectoryIndex {
    const batchSize: nat
    var rows: Table

    constructor (batchSize: nat)
      requires batchSize > 0
      ensures this.batchSize == batchSize && rows == map[]
    {
      this.batchSize := batchSize;
      rows := map[];
    }

    /** `delta_sync_directory_tree`, up to the flushing of the last batches. */
    method ApplyWalk(target: Target, walk: seq<Folder>, ids: seq<Id>) returns (seen: set<string>, result: SyncResult)
      requires |walk| == |ids| && DistinctPaths(walk) && NewIds(rows, ids) && UniqueIds(rows)
      modifies this
      ensures rows == old(rows) + Changes(old(rows), target, walk, ids)
      ensures seen == WalkedPaths(walk)
      ensures result == Counted(old(rows), target, walk)
      ensures result.inserted == 0 <==> WalkedPaths(walk) <= StoredPaths(old(rows), target)
    {
      hide Progress, Changes, StandsFor, WalkedPaths, DistinctPaths, UniqueIds, IdFree, Updated, Upserted, Untouched, NewFolders, ChangedFolders, UntouchedFolders;
      var existing := rows;
      var insertBatch: seq<Insertion>, updateBatch: seq<Change> := [], [];
      var inserted: nat, updated: nat, untouched: nat := 0, 0, 0;
      seen := {};
      ghost var b := Batches(map[], [], map[], [], map[]);
      StartProgress(existing, target, walk, ids);
      NothingCounted(existing, target);
      for n := 0 to |walk|
        invariant Progress(existing, target, walk, ids, n, rows, b)
        invariant b.inserts == insertBatch && b.updates == updateBatch
        invariant seen == WalkedPaths(walk[..n])
        invariant inserted + |insertBatch| == NewFolders(existing, target, walk[..n])
        invariant updated + |updateBatch| == ChangedFolders(existing, target, walk[..n])
        invariant untouched == UntouchedFolders(existing, target, walk[..n])
        invariant inserted + |insertBatch| == 0 <==> seen <= StoredPaths(existing, target)
      {
        var f := walk[n];
        var k := Key(target, f.path);
        WalkedPathsNext(walk, n);
        CountNext(existing, target, walk, n);
        seen := seen + {f.path};
        assert f.path in StoredPaths(existing, target) <==> k in existing;
        if k in existing {
          if Untouched(existing[k], f) {
            AddSkip(existing, target, walk, ids, n, rows, b);
            untouched := untouched + 1;
          } else {
            AddUpdate(existing, target, walk, ids, n, rows, b);
            updateBatch := updateBatch + [Change(existing[k].id, f.columns)];
            b := b.(updates := updateBatch, pending := b.pending[k := Overwritten(existing[k], f.columns)]);
            if |updateBatch| >= batchSize {
              FlushUpdates(existing, target, walk, ids, n + 1, rows, b);
              rows := Updated(rows, updateBatch);
              updated := updated + |updateBatch|;
              updateBatch := [];
              b := b.(done := b.done + b.pending, updates := [], pending := map[]);
            }
          }
        } else {
          AddInsert(existing, target, walk, ids, n, rows, b);
          insertBatch := insertBatch + [Insertion(ids[n], f)];
          b := b.(inserts := insertBatch, adding := b.adding[k := NewRow(ids[n], f)]);
          if |insertBatch| >= batchSize {
            FlushInserts(existing, target, walk, ids, n + 1, rows, b);
            rows := Upserted(rows, target, insertBatch, true);
            inserted := inserted + |insertBatch|;
            insertBatch := [];
            b := b.(done := b.done + b.adding, inserts := [], adding := map[]);
          }
        }
      }
      if insertBatch != [] {
        FlushInserts(existing, target, walk, ids, |walk|, rows, b);
        rows := Upserted(rows, target, insertBatch, true);
        inserted := inserted + |insertBatch|;
        b := b.(done := b.done + b.adding, inserts := [], adding := map[]);
      }
      if updateBatch != [] {
        FlushUpdates(existing, target, walk, ids, |walk|, rows, b);
        rows := Updated(rows, updateBatch);
        updated := updated + |updateBatch|;
        b := b.(done := b.done + b.pending, updates := [], pending := map[]);
      }
      assert walk[..|walk|] == walk;
      EndProgress(existing, target, walk, ids, rows, b);
      result := SyncResult(inserted, updated, untouched, |seen|);
    }

    /** `_delete_missing`: one DELETE for each batch of paths. */
    method DeleteMissing(target: Target, paths: set<string>)
      requires UniqueIds(rows) && Forest(rows) && batchSize > 0
      modifies this
      ensures rows == Deleted(old(rows), target, paths)
    {
      hide Deleted, UniqueIds, Forest;
      var pathList := ListOf(paths);
      var i := 0;
      DeletedNothing(rows, target);
      while i < |pathList|
        invariant 0 <= i <= |pathList| && UniqueIds(rows) && Forest(rows)
        invariant rows == Deleted(old(rows), target, Members(pathList[..i]))
      {
        var end := if i + batchSize < |pathList| then i + batchSize else |pathList|;
        var batch := pathList[i..end];
        assert Members(pathList[..end]) == Members(pathList[..i]) + Members(batch) by {
          assert pathList[..end] == pathList[..i] + batch;
          MembersOfSum(pathList[..i], batch);
        }
        DeletedInBatches(old(rows), target, Members(pathList[..i]), Members(batch));
        DeleteKeeps(rows, target, Members(batch));
        rows := Deleted(rows, target, Members(batch));
        i := end;
      }
      assert pathList[..i] == pathList;
    }

    /** `delta_sync_directory_tree` */
    method DeltaSync(target: Target, walk: seq<Folder>, ids: seq<Id>) returns (result: SyncResult)
      requires batchSize > 0 && UniqueIds(rows) && Forest(rows)
      requires |walk| == |ids| && DistinctPaths(walk) && NewIds(rows, ids)
      modifies this
      ensures Forest(old(rows) + Changes(old(rows), target, walk, ids))
      ensures rows == Synced(old(rows), target, walk, ids)
      ensures result == Counted(old(rows), target, walk)
      ensures result.inserted + result.updated + result.untouched == result.totalDirs == |walk|
    {
      CountsAddUp(rows, target, walk);
      hide Changes, Deleted, UniqueIds, Forest, Resolved, DistinctPaths, NewIds, StoredPaths, WalkedPaths;
      ChangesKeep(rows, target, walk, ids);
      var existing := StoredPaths(rows, target);
      var seen;
      seen, result := ApplyWalk(target, walk, ids);
      if existing - seen != {} {
        DeleteMissing(target, existing - seen);
      } else {
        DeletedNothing(rows, target);
      }
      if result.inserted > 0 {
        rows := Resolved(rows, target);
      }
    }

    /** `bootstrap_directory_tree` */
    method Bootstrap(target: Target, walk: seq<Folder>, ids: seq<Id>) returns (total: nat)
      requires batchSize > 0 && |walk| == |ids|
      modifies this
      ensures rows == Resolved(Upserted(old(rows), target, Insertions(walk, ids), false), target)
      ensures total == |walk|
    {
      hide Upserted, Resolved;
      var batch: seq<Insertion> := [];
      total := 0;
      ghost var all := Insertions(walk, ids);
      UpsertedNothing(rows, target);
      for n := 0 to |walk|
        invariant 0 <= n - |batch| == total && batch == all[n - |batch|..n]
        invariant rows == Upserted(old(rows), target, all[..n - |batch|], false)
      {
        batch := batch + [Insertion(ids[n], walk[n])];
        if |batch| >= batchSize {
          UpsertedTwice(old(rows), target, all[..n + 1 - |batch|], batch);
          assert all[..n + 1 - |batch|] + batch == all[..n + 1];
          rows := Upserted(rows, target, batch, false);
          total := total + |batch|;
          batch := [];
        }
      }
      if batch != [] {
        UpsertedTwice(old(rows), target, all[..|walk| - |batch|], batch);
        assert all[..|walk| - |batch|] + batch == all;
        rows := Upserted(rows, target, batch, false);
        total := total + |batch|;
      } else {
        assert all[..|walk|] == all;
      }
      rows := Resolved(rows, target);
    }
  }

  function Insertions(walk: seq<Folder>, ids: seq<Id>): (r: seq<Insertion>)
    requires |walk| == |ids|
    ensures |r| == |walk|
  {
    seq(|walk|, i requires 0 <= i < |walk| => Insertion(ids[i], walk[i]))
  }

  function Members(l: seq<string>): set<string> {
    set p | p in l
  }

  lemma MembersOfSum(a: seq<string>, b: seq<string>)
    ensures Members(a + b) == Members(a) + Members(b)
  {
  }

  method ListOf(s: set<string>) returns (l: seq<string>)
    ensures Members(l) == s
  {
    l := [];
    var left := s;
    while left != {}
      invariant Members(l) + left == s
    {
      var p :| p in left;
      left := left - {p};
      MembersOfSum(l, [p]);
      assert Members([p]) == {p};
      l := l + [p];
    }
  }

  lemma {:induction false} NothingCondemned(t: Table, k: Key, target: Target)
    requires Forest(t) && k in t
    ensures !Condemned(t, k, target, {})
    decreases |k.path|
  {
    ParentPathShorter(k.path);
    if t[k].parent.Some? {
      NothingCondemned(t, ParentKey(k), target);
    }
  }

  lemma DeletedNothing(t: Table, target: Target)
    requires Forest(t)
    ensures Deleted(t, target, {}) == t && Members([]) == {}
  {
    forall k | k in t ensures !Condemned(t, k, target, {}) {
      NothingCondemned(t, k, target);
    }
  }

  lemma UpsertedNothing(t: Table, target: Target)
    ensures Upserted(t, target, [], false) == t
  {
  }

  /** Upserting in batches is upserting everything at once. */
  lemma {:induction false} UpsertedTwice(t: Table, target: Target, a: seq<Insertion>, b: seq<Insertion>)
    ensures Upserted(Upserted(t, target, a, false), target, b, false) == Upserted(t, target, a + b, false)
  {
    hide UpsertedOne;
    if b == [] {
      assert a + b == a;
    } else {
      assert (a + b)[..|a + b| - 1] == a + b[..|b| - 1];
      UpsertedTwice(t, target, a, b[..|b| - 1]);
    }
  }

  /** A row that a walk changes keeps its identifier and its link; a row it adds has no link yet. */
  lemma ChangedRow(t: Table, target: Target, walk: seq<Folder>, ids: seq<Id>, k: Key) returns (i: nat)
    requires |walk| == |ids| && DistinctPaths(walk) && k in Changes(t, target, walk, ids)
    ensures i < |walk| && k == Key(target, walk[i].path)
    ensures RowAfter(t, target, walk[i], ids[i]) == Some(Changes(t, target, walk, ids)[k])
  {
    ChangesAt(t, target, walk, ids);
    i :| 0 <= i < |walk| && walk[i].path == k.path;
  }

  lemma ChangesKeep(t: Table, target: Target, walk: seq<Folder>, ids: seq<Id>)
    requires |walk| == |ids| && DistinctPaths(walk) && NewIds(t, ids) && UniqueIds(t) && Forest(t)
    ensures UniqueIds(t + Changes(t, target, walk, ids)) && Forest(t + Changes(t, target, walk, ids))
  {
    hide Changes;
    var c := Changes(t, target, walk, ids);
    var m := t + c;
    forall k | k in m
      ensures if k in t then m[k].id == t[k].id && m[k].parent == t[k].parent
              else m[k].parent == None && exists i :: 0 <= i < |ids| && m[k].id == ids[i] && k == Key(target, walk[i].path)
    {
      if k in c {
        var i := ChangedRow(t, target, walk, ids, k);
        assert k !in t ==> m[k].id == ids[i];
      }
    }
    UniqueWhenNewIdsDiffer(t, m, target, walk, ids);
  }

  lemma UniqueWhenNewIdsDiffer(t: Table, m: Table, target: Target, walk: seq<Folder>, ids: seq<Id>)
    requires |walk| == |ids| && NewIds(t, ids) && UniqueIds(t)
    requires forall k :: k in m ==>
               if k in t then m[k].id == t[k].id
               else exists i :: 0 <= i < |ids| && m[k].id == ids[i] && k == Key(target, walk[i].path)
    ensures UniqueIds(m)
  {
  }

  // ----- what a sync leaves behind

  /** Every walked directory that is stored with a parent is walked together with it. */
  ghost predicate ParentClosed(t: Table, target: Target, walk: seq<Folder>)
    requires Forest(t)
  {
    forall k :: k in t && k.target == target && k.path in WalkedPaths(walk) && t[k].parent.Some? ==>
      ParentPath(k.path) in WalkedPaths(walk)
  }

  function Missing(t: Table, target: Target, walk: seq<Folder>): set<string> {
    StoredPaths(t, target) - WalkedPaths(walk)
  }

  /** The table before the deletion, with what the lemmas below need of it. */
  ghost predicate Merged(t: Table, target: Target, walk: seq<Folder>, ids: seq<Id>, m: Table) {
    && |walk| == |ids| && m == t + Changes(t, target, walk, ids) && Forest(t) && Forest(m)
    && (forall k :: k in m ==> if k in t then m[k].parent == t[k].parent else m[k].parent == None)
    && m.Keys == t.Keys + set p | p in WalkedPaths(walk) :: Key(target, p)
  }

  lemma MergedTable(t: Table, target: Target, walk: seq<Folder>, ids: seq<Id>) returns (m: Table)
    requires |walk| == |ids| && DistinctPaths(walk) && NewIds(t, ids) && UniqueIds(t) && Forest(t)
    ensures Merged(t, target, walk, ids, m) && UniqueIds(m)
  {
    hide Changes, UniqueIds, Forest, NewIds, DistinctPaths;
    m := t + Changes(t, target, walk, ids);
    ChangesKeep(t, target, walk, ids);
    ChangesAt(t, target, walk, ids);
    forall k | k in m ensures if k in t then m[k].parent == t[k].parent else m[k].parent == None {
      if k in Changes(t, target, walk, ids) {
        var i := ChangedRow(t, target, walk, ids, k);
      }
    }
    forall p | p in WalkedPaths(walk) ensures Key(target, p) in m {
      var i :| 0 <= i < |walk| && walk[i].path == p;
    }
  }

  lemma {:induction false} WalkedNotCondemned(t: Table, target: Target, walk: seq<Folder>, ids: seq<Id>, m: Table, k: Key)
    requires Merged(t, target, walk, ids, m) && ParentClosed(t, target, walk)
    requires k in m && k.target == target && k.path in WalkedPaths(walk)
    ensures !Condemned(m, k, target, Missing(t, target, walk))
    decreases |k.path|
  {
    ParentPathShorter(k.path);
    if m[k].parent.Some? {
      WalkedNotCondemned(t, target, walk, ids, m, ParentKey(k));
    }
  }

  /**
    The cascading delete of the missing paths removes no walked directory if and only if the walk
    is parent-closed.
   */
  lemma CascadeSparesWalkedIff(t: Table, target: Target, walk: seq<Folder>, ids: seq<Id>)
    requires |walk| == |ids| && DistinctPaths(walk) && NewIds(t, ids) && UniqueIds(t) && Forest(t)
    ensures Forest(t + Changes(t, target, walk, ids))
    ensures (forall p :: p in WalkedPaths(walk) ==> Key(target, p) in Synced(t, target, walk, ids)) <==>
            ParentClosed(t, target, walk)
  {
    var m := MergedTable(t, target, walk, ids);
    hide Changes, WalkedPaths, DistinctPaths, NewIds;
    var after := Synced(t, target, walk, ids);
    forall p | p in WalkedPaths(walk) && ParentClosed(t, target, walk) ensures Key(target, p) in after {
      WalkedNotCondemned(t, target, walk, ids, m, Key(target, p));
    }
    forall k | k in t && k.target == target && k.path in WalkedPaths(walk) && t[k].parent.Some?
               && ParentPath(k.path) !in WalkedPaths(walk)
      ensures Key(target, k.path) !in after
    {
      var parent := ParentKey(k);
      assert parent in t && parent.path in StoredPaths(t, target);
      assert Condemned(m, parent, target, Missing(t, target, walk));
      assert Condemned(m, k, target, Missing(t, target, walk));
      assert k == Key(target, k.path);
    }
  }

  const UNKNOWN: Columns := Columns(None, None, None, None, None)

  /** A stored directory and its parent. */
  const PARENT_AND_CHILD: Table := map[
    Key(0, "/a") := Row(1, "a", UNKNOWN, None, None),
    Key(0, "/a/b") := Row(2, "b", UNKNOWN, None, Some(1))]

  lemma ChildOfA()
    ensures ParentPath("/a/b") == "/a" && ParentPath("/a") == ""
  {
    assert StripFrom("/a/b", 4) == StripFrom("/a/b", 3) == "/a/b"[..2] == "/a";
    assert StripFrom("/a", 2) == StripFrom("/a", 1) == "/a"[..0] == "";
  }

  /** A walk that lists the child but not its parent: the sync deletes the parent and with it the walked child. */
  lemma CascadeTakesWalked()
    ensures var walk := [Folder("/a/b", "b", UNKNOWN)];
            && UniqueIds(PARENT_AND_CHILD) && Forest(PARENT_AND_CHILD) && DistinctPaths(walk) && NewIds(PARENT_AND_CHILD, [3])
            && Forest(PARENT_AND_CHILD + Changes(PARENT_AND_CHILD, 0, walk, [3]))
            && Key(0, "/a/b") in PARENT_AND_CHILD
            && Key(0, "/a/b") !in Synced(PARENT_AND_CHILD, 0, walk, [3])
  {
    var walk := [Folder("/a/b", "b", UNKNOWN)];
    ChildOfA();
    WalkedAt(walk, 0);
    assert WalkedPaths(walk) == {"/a/b"};
    assert "/a" != "/a/b" by {
      assert |"/a"| != |"/a/b"|;
    }
    var k := Key(0, "/a/b");
    assert ParentKey(k) == Key(0, "/a") && PARENT_AND_CHILD[k].parent == Some(1);
    assert !ParentClosed(PARENT_AND_CHILD, 0, walk);
    CascadeSparesWalkedIff(PARENT_AND_CHILD, 0, walk, [3]);
    var p :| p in WalkedPaths(walk) && Key(0, p) !in Synced(PARENT_AND_CHILD, 0, walk, [3]);
    assert p == "/a/b";
  }

  /** The paths a sync leaves stored are walked; for a parent-closed walk they are all the walked ones. */
  lemma SyncedPaths(t: Table, target: Target, walk: seq<Folder>, ids: seq<Id>)
    requires |walk| == |ids| && DistinctPaths(walk) && NewIds(t, ids) && UniqueIds(t) && Forest(t)
    ensures Forest(t + Changes(t, target, walk, ids))
    ensures StoredPaths(Synced(t, target, walk, ids), target) <= WalkedPaths(walk)
    ensures ParentClosed(t, target, walk) ==> StoredPaths(Synced(t, target, walk, ids), target) == WalkedPaths(walk)
  {
    var m := MergedTable(t, target, walk, ids);
    CascadeSparesWalkedIff(t, target, walk, ids);
    hide Changes, WalkedPaths, DistinctPaths, NewIds;
    var after := Synced(t, target, walk, ids);
    forall k | k in after && k.target == target ensures k.path in WalkedPaths(walk) {
      assert k in m && !Condemned(m, k, target, Missing(t, target, walk));
      assert k in t ==> k.path in StoredPaths(t, target);
    }
    if ParentClosed(t, target, walk) {
      forall p | p in WalkedPaths(walk) ensures p in StoredPaths(after, target) {
        assert Key(target, p) in after;
      }
    }
  }

  /** No row of another target is touched. */
  lemma OtherTargetsUnchanged(t: Table, target: Target, walk: seq<Folder>, ids: seq<Id>, k: Key)
    requires |walk| == |ids| && DistinctPaths(walk) && NewIds(t, ids) && UniqueIds(t) && Forest(t) && k.target != target
    ensures Forest(t + Changes(t, target, walk, ids))
    ensures k in t <==> k in Synced(t, target, walk, ids)
    ensures k in t ==> Synced(t, target, walk, ids)[k] == t[k]
  {
    var m := MergedTable(t, target, walk, ids);
    ChangesAt(t, target, walk, ids);
    if k in m {
      OtherTargetsSafe(m, k, target, Missing(t, target, walk));
    }
  }

  /**
    The row of every walked directory after the sync of a parent-closed walk: a new or changed one
    carries the live columns and no `sd_hash`, an untouched one differs from the live modification
    time by less than a second, and a stored one keeps its identifier.
   */
  lemma SyncedRow(t: Table, target: Target, walk: seq<Folder>, ids: seq<Id>, i: nat)
    requires |walk| == |ids| && DistinctPaths(walk) && NewIds(t, ids) && UniqueIds(t) && Forest(t)
    requires ParentClosed(t, target, walk) && i < |walk|
    ensures Forest(t + Changes(t, target, walk, ids))
    ensures var after := Synced(t, target, walk, ids); var k := Key(target, walk[i].path);
            && k in after
            && (if k in t then after[k].id == t[k].id else after[k].id == ids[i])
            && (if k in t && Untouched(t[k], walk[i])
                then after[k].columns == t[k].columns && after[k].sdHash == t[k].sdHash && Untouched(after[k], walk[i])
                else after[k].columns == walk[i].columns && after[k].sdHash == None)
  {
    hide Changes, DistinctPaths, NewIds, UniqueIds, Forest, WalkedPaths, ParentClosed, RowAfter, Condemned;
    var m := MergedTable(t, target, walk, ids);
    var k := Key(target, walk[i].path);
    MergedRow(t, target, walk, ids, i);
    WalkedAt(walk, i);
    WalkedNotCondemned(t, target, walk, ids, m, k);
    assert Synced(t, target, walk, ids)[k].(parent := m[k].parent) == m[k];
  }

  lemma WalkedAt(walk: seq<Folder>, i: nat)
    requires i < |walk|
    ensures walk[i].path in WalkedPaths(walk)
  {
  }

  lemma MergedRow(t: Table, target: Target, walk: seq<Folder>, ids: seq<Id>, i: nat)
    requires |walk| == |ids| && DistinctPaths(walk) && i < |walk|
    ensures var m := t + Changes(t, target, walk, ids); var k := Key(target, walk[i].path);
            && k in m
            && (if k !in t then m[k] == NewRow(ids[i], walk[i])
                else if Untouched(t[k], walk[i]) then m[k] == t[k]
                else m[k] == Overwritten(t[k], walk[i].columns))
  {
    hide Changes, DistinctPaths;
    ChangesAt(t, target, walk, ids);
  }

  /** Syncs keep the identifiers unique, the links a forest, and every stored parent linked. */
  lemma SyncKeepsTree(t: Table, target: Target, walk: seq<Folder>, ids: seq<Id>)
    requires |walk| == |ids| && DistinctPaths(walk) && NewIds(t, ids) && UniqueIds(t) && Forest(t)
    ensures Forest(t + Changes(t, target, walk, ids))
    ensures var after := Synced(t, target, walk, ids);
            UniqueIds(after) && Forest(after) && (Linked(t, target) ==> Linked(after, target))
  {
    var m := MergedTable(t, target, walk, ids);
    hide Changes, DistinctPaths, NewIds, UniqueIds, Forest, Linked, Deleted;
    var kept := Deleted(m, target, Missing(t, target, walk));
    DeleteKeeps(m, target, Missing(t, target, walk));
    ResolveKeeps(kept, target);
    if Linked(t, target) && WalkedPaths(walk) <= StoredPaths(t, target) {
      LinkedMerged(t, target, walk, ids, m);
    }
  }

  lemma LinkedMerged(t: Table, target: Target, walk: seq<Folder>, ids: seq<Id>, m: Table)
    requires Merged(t, target, walk, ids, m) && Linked(t, target) && WalkedPaths(walk) <= StoredPaths(t, target)
    ensures Linked(m, target)
  {
    hide Changes, WalkedPaths;
    forall p | p in WalkedPaths(walk) ensures Key(target, p) in t {
      assert p in StoredPaths(t, target);
    }
    assert m.Keys == t.Keys;
  }

  // ----- agreement with a full rebuild

  /** `clear_directory_tree` */
  function Cleared(t: Table, target: Target): Table {
    map k | k in t && k.target != target :: t[k]
  }

  function Rebuilt(t: Table, target: Target, walk: seq<Folder>, ids: seq<Id>): Table
    requires |walk| == |ids|
  {
    Resolved(Upserted(Cleared(t, target), target, Insertions(walk, ids), false), target)
  }

  lemma InsertionsNext(walk: seq<Folder>, ids: seq<Id>)
    requires |walk| == |ids| && walk != []
    ensures var n := |walk| - 1;
            Insertions(walk, ids) == Insertions(walk[..n], ids[..n]) + [Insertion(ids[n], walk[n])]
            && WalkedPaths(walk) == WalkedPaths(walk[..n]) + {walk[n].path}
  {
    var n := |walk| - 1;
    WalkedPathsNext(walk, n);
    assert walk[..n + 1] == walk;
  }

  lemma KeysOfPaths(target: Target, a: set<string>, p: string)
    ensures (set q | q in a + {p} :: Key(target, q)) == (set q | q in a :: Key(target, q)) + {Key(target, p)}
  {
  }

  lemma {:induction false} InsertedBatch(target: Target, walk: seq<Folder>, ids: seq<Id>)
    requires |walk| == |ids| && DistinctPaths(walk)
    ensures BatchOf(target, Insertions(walk, ids), Inserted(target, Insertions(walk, ids)))
    ensures Inserted(target, Insertions(walk, ids)).Keys == set p | p in WalkedPaths(walk) :: Key(target, p)
  {
    if walk == [] {
      BatchOfNone(target);
    } else {
      hide BatchOf, WalkedPaths;
      var n := |walk| - 1;
      var front := Insertions(walk[..n], ids[..n]);
      InsertedBatch(target, walk[..n], ids[..n]);
      InsertionsNext(walk, ids);
      KeysOfPaths(target, WalkedPaths(walk[..n]), walk[n].path);
      PathIsNew(walk, n);
      BatchOfMore(target, front, Inserted(target, front), Insertion(ids[n], walk[n]));
      assert (front + [Insertion(ids[n], walk[n])])[..n] == front;
    }
  }

  lemma {:induction false} InsertedAt(target: Target, walk: seq<Folder>, ids: seq<Id>, i: nat)
    requires |walk| == |ids| && DistinctPaths(walk) && i < |walk|
    ensures var k := Key(target, walk[i].path); var r := Inserted(target, Insertions(walk, ids));
            k in r && r[k] == NewRow(ids[i], walk[i])
  {
    hide WalkedPaths;
    var n := |walk| - 1;
    var front := Insertions(walk[..n], ids[..n]);
    InsertionsNext(walk, ids);
    assert (front + [Insertion(ids[n], walk[n])])[..n] == front;
    if i < n {
      InsertedAt(target, walk[..n], ids[..n], i);
      assert walk[i].path != walk[n].path;
    }
  }

  lemma RebuiltRows(t: Table, target: Target, walk: seq<Folder>, ids: seq<Id>)
    requires |walk| == |ids| && DistinctPaths(walk) && NewIds(t, ids) && UniqueIds(t) && Forest(t)
    ensures var r := Rebuilt(t, target, walk, ids);
            && StoredPaths(r, target) == WalkedPaths(walk)
            && Forest(r) && Linked(r, target)
            && (forall i :: 0 <= i < |walk| ==>
                  Key(target, walk[i].path) in r && r[Key(target, walk[i].path)].columns == walk[i].columns)
  {
    hide WalkedPaths, DistinctPaths, Upserted, BatchOf, Inserted, UniqueIds, Forest, Linked;
    var batch := Insertions(walk, ids);
    var cleared, adding := Cleared(t, target), Inserted(target, batch);
    ClearedKeeps(t, target);
    InsertedBatch(target, walk, ids);
    forall i | 0 <= i < |walk|
      ensures Key(target, walk[i].path) in adding && adding[Key(target, walk[i].path)] == NewRow(ids[i], walk[i])
    {
      InsertedAt(target, walk, ids, i);
    }
    UpsertAdds(cleared, target, batch, adding, false);
    UpsertKeeps(cleared, target, batch, false);
    ResolveKeeps(cleared + adding, target);
    forall p ensures p in StoredPaths(Rebuilt(t, target, walk, ids), target) <==> p in WalkedPaths(walk) {
      assert Key(target, p) in Rebuilt(t, target, walk, ids) <==> Key(target, p) in adding;
    }
  }

  lemma ClearedKeeps(t: Table, target: Target)
    requires UniqueIds(t) && Forest(t)
    ensures UniqueIds(Cleared(t, target)) && Forest(Cleared(t, target))
  {
  }

  /**
    The incremental sync of a parent-closed walk agrees with clearing the target and bootstrapping
    it from the same walk: the same paths are stored, the same of them have a parent link (to the
    row at the parent path, in both), and the columns are the same, unless the stored modification
    time was within a second of the live one.
   */
  lemma SyncAgreesWithRebuild(t: Table, target: Target, walk: seq<Folder>, ids: seq<Id>, rebuildIds: seq<Id>)
    requires |walk| == |ids| == |rebuildIds| && DistinctPaths(walk) && NewIds(t, ids) && NewIds(t, rebuildIds)
    requires UniqueIds(t) && Forest(t) && Linked(t, target) && ParentClosed(t, target, walk)
    ensures Forest(t + Changes(t, target, walk, ids))
    ensures var synced, rebuilt := Synced(t, target, walk, ids), Rebuilt(t, target, walk, rebuildIds);
            && StoredPaths(synced, target) == StoredPaths(rebuilt, target)
            && (forall i :: 0 <= i < |walk| ==>
                  var k := Key(target, walk[i].path);
                  && k in synced && k in rebuilt
                  && (synced[k].parent.Some? <==> rebuilt[k].parent.Some?)
                  && (synced[k].columns == rebuilt[k].columns || (k in t && Untouched(t[k], walk[i]))))
  {
    hide WalkedPaths, DistinctPaths, NewIds, UniqueIds, Changes, ParentClosed, Rebuilt, Upserted, Synced;
    SyncedPaths(t, target, walk, ids);
    SyncKeepsTree(t, target, walk, ids);
    RebuiltRows(t, target, walk, rebuildIds);
    var synced, rebuilt := Synced(t, target, walk, ids), Rebuilt(t, target, walk, rebuildIds);
    forall i | 0 <= i < |walk|
      ensures var k := Key(target, walk[i].path);
              && k in synced && k in rebuilt
              && (synced[k].parent.Some? <==> rebuilt[k].parent.Some?)
              && (synced[k].columns == rebuilt[k].columns || (k in t && Untouched(t[k], walk[i])))
    {
      SyncedRow(t, target, walk, ids, i);
      SameLinks(synced, rebuilt, target, Key(target, walk[i].path));
    }
  }

  lemma SameLinks(a: Table, b: Table, target: Target, k: Key)
    requires Forest(a) && Forest(b) && Linked(a, target) && Linked(b, target)
    requires StoredPaths(a, target) == StoredPaths(b, target) && k in a && k in b && k.target == target
    ensures a[k].parent.Some? <==> b[k].parent.Some?
  {
    var p := ParentKey(k);
    assert p in a <==> p.path in StoredPaths(a, target);
    assert p in b <==> p.path in StoredPaths(b, target);
  }

  // ----- the two ends of the loop

  lemma StartProgress(t: Table, target: Target, walk: seq<Folder>, ids: seq<Id>)
    requires |walk| == |ids|
    ensures Progress(t, target, walk, ids, 0, t, Batches(map[], [], map[], [], map[]))
    ensures WalkedPaths(walk[..0]) == {}
  {
    assert t + map[] == t;
  }

  lemma EndProgress(t: Table, target: Target, walk: seq<Folder>, ids: seq<Id>, rows: Table, b: Batches)
    requires |walk| == |ids| && Progress(t, target, walk, ids, |walk|, rows, b) && b.inserts == [] && b.updates == []
    ensures rows == t + Changes(t, target, walk, ids)
  {
    assert walk[..|walk|] == walk && ids[..|walk|] == ids;
    assert b.adding == map[] && b.pending == map[];
    PlusNothing(b.done);
  }
}
