/**
  The rows of `directory_tree` and the statements that `jobs/index.py` and `jobs/delta_sync.py`
  send to it, as functions of the table.
 */
module DirectoryTree {
  import opened Results

  /** Tenant and target together. */
  type Target = nat

  type Id = nat

  /** The columns a walk supplies and an update overwrites. */
  datatype Columns = Columns(
    modified: Option<real>,
    dirRef: Option<int>,
    parentRef: Option<int>,
    childDirs: Option<int>,
    childFiles: Option<int>)

  datatype Folder = Folder(path: string, name: string, columns: Columns)

  /** The unique index: one row for each path of a target. */
  datatype Key = Key(target: Target, path: string)

  datatype Row = Row(id: Id, name: string, columns: Columns, sdHash: Option<int>, parent: Option<Id>)

  type Table = map<Key, Row>

  // ----- parent paths, as the SQL expression computes them

  /** `regexp_replace(s, '/[^/]*$', '')` */
  function StripLastComponent(s: string): (r: string)
    ensures r == s || |r| < |s|
  {
    StripFrom(s, |s|)
  }

  function StripFrom(s: string, i: nat): (r: string)
    requires i <= |s|
    ensures r == s || |r| < |s|
  {
    if i == 0 then s
    else if s[i - 1] == '/' then s[..i - 1]
    else StripFrom(s, i - 1)
  }

  function ParentPath(path: string): string {
    if path != "" && path[|path| - 1] == '/' then StripLastComponent(path[..|path| - 1]) + "/"
    else StripLastComponent(path)
  }

  function ParentKey(k: Key): Key {
    Key(k.target, ParentPath(k.path))
  }

  /** With or without a trailing slash, the parent path is shorter, or it is the path itself. */
  lemma ParentPathShorter(path: string)
    ensures ParentPath(path) == path || |ParentPath(path)| < |path|
  {
    if path != "" && path[|path| - 1] == '/' {
      var front := path[..|path| - 1];
      if StripLastComponent(front) == front {
        assert ParentPath(path) == path;
      }
    }
  }

  // ----- the forest

  ghost predicate UniqueIds(t: Table) {
    forall j, k :: j in t && k in t && t[j].id == t[k].id ==> j == k
  }

  /** Every link goes to the row at the parent path, and never to the row itself. */
  ghost predicate Forest(t: Table) {
    forall k :: k in t && t[k].parent.Some? ==>
      ParentKey(k) != k && ParentKey(k) in t && t[ParentKey(k)].id == t[k].parent.value
  }

  /** Every row of the target whose parent is stored is linked to it. */
  ghost predicate Linked(t: Table, target: Target) {
    forall k :: k in t && k.target == target && ParentKey(k) != k && ParentKey(k) in t ==> t[k].parent.Some?
  }

  /** A link goes to a strictly shorter path of the same target, so links make no cycle. */
  lemma LinkGoesUp(t: Table, k: Key)
    requires Forest(t) && k in t && t[k].parent.Some?
    ensures ParentKey(k) in t && ParentKey(k).target == k.target && |ParentKey(k).path| < |k.path|
  {
    ParentPathShorter(k.path);
  }

  // ----- statements

  function NewRow(id: Id, f: Folder): Row {
    Row(id, f.name, f.columns, None, None)
  }

  datatype Insertion = Insertion(id: Id, folder: Folder)

  function UpsertedOne(t: Table, target: Target, one: Insertion, clearHash: bool): Table {
    var Insertion(id, f) := one;
    var k := Key(target, f.path);
    if k in t then t[k := t[k].(name := f.name, columns := f.columns, sdHash := if clearHash then None else t[k].sdHash)]
    else t[k := NewRow(id, f)]
  }

  /** INSERT ... ON CONFLICT DO UPDATE; the delta sync also clears `sd_hash`. */
  function Upserted(t: Table, target: Target, batch: seq<Insertion>, clearHash: bool): Table {
    if batch == [] then t
    else UpsertedOne(Upserted(t, target, batch[..|batch| - 1], clearHash), target, batch[|batch| - 1], clearHash)
  }

  datatype Change = Change(id: Id, columns: Columns)

  function ChangeFor(batch: seq<Change>, id: Id): Option<Columns> {
    if batch == [] then None
    else if batch[|batch| - 1].id == id then Some(batch[|batch| - 1].columns)
    else ChangeFor(batch[..|batch| - 1], id)
  }

  function Overwritten(row: Row, columns: Columns): Row {
    row.(columns := columns, sdHash := None)
  }

  /** UPDATE ... FROM (VALUES ...) WHERE dt.id = v.id */
  function Updated(t: Table, batch: seq<Change>): Table {
    map k | k in t :: match ChangeFor(batch, t[k].id)
                      case None => t[k]
                      case Some(columns) => Overwritten(t[k], columns)
  }

  /** The row, or a row it descends from, is one of those to be deleted. */
  predicate Condemned(t: Table, k: Key, target: Target, paths: set<string>)
    requires Forest(t) && k in t
    decreases |k.path|
  {
    ParentPathShorter(k.path);
    || (k.target == target && k.path in paths)
    || (t[k].parent.Some? && Condemned(t, ParentKey(k), target, paths))
  }

  /** DELETE ... WHERE dir_path IN (...), with ON DELETE CASCADE along the links. */
  function Deleted(t: Table, target: Target, paths: set<string>): Table
    requires Forest(t)
  {
    map k | k in t && !Condemned(t, k, target, paths) :: t[k]
  }

  /** UPDATE ... SET parent_id by path, for rows that have none. */
  function Resolved(t: Table, target: Target): Table {
    map k | k in t ::
      if k.target == target && t[k].parent.None? && ParentKey(k) != k && ParentKey(k) in t
      then t[k].(parent := Some(t[ParentKey(k)].id)) else t[k]
  }

  // ----- what the statements keep

  ghost predicate IdFree(t: Table, id: Id) {
    forall k :: k in t ==> t[k].id != id
  }

  /** The ids given to a batch are new, each of them. */
  ghost predicate FreshIds(t: Table, batch: seq<Insertion>) {
    && (forall i, j :: 0 <= i < j < |batch| ==> batch[i].id != batch[j].id)
    && (forall i :: 0 <= i < |batch| ==> IdFree(t, batch[i].id))
  }

  lemma {:induction false} UpsertKeepsIdFree(t: Table, target: Target, batch: seq<Insertion>, clearHash: bool, id: Id)
    requires IdFree(t, id) && forall i :: 0 <= i < |batch| ==> batch[i].id != id
    ensures IdFree(Upserted(t, target, batch, clearHash), id)
  {
    if batch != [] {
      UpsertKeepsIdFree(t, target, batch[..|batch| - 1], clearHash, id);
    }
  }

  lemma UpsertOneKeeps(t: Table, target: Target, one: Insertion, clearHash: bool)
    requires UniqueIds(t) && Forest(t) && IdFree(t, one.id)
    ensures var u := UpsertedOne(t, target, one, clearHash);
            UniqueIds(u) && Forest(u) && u.Keys == t.Keys + {Key(target, one.folder.path)}
  {
  }

  lemma {:induction false} UpsertKeeps(t: Table, target: Target, batch: seq<Insertion>, clearHash: bool)
    requires UniqueIds(t) && Forest(t) && FreshIds(t, batch)
    ensures var u := Upserted(t, target, batch, clearHash);
            UniqueIds(u) && Forest(u) && u.Keys == t.Keys + set i | 0 <= i < |batch| :: Key(target, batch[i].folder.path)
  {
    hide UniqueIds, Forest, IdFree, UpsertedOne;
    if batch != [] {
      var init, last := batch[..|batch| - 1], batch[|batch| - 1];
      UpsertKeeps(t, target, init, clearHash);
      UpsertKeepsIdFree(t, target, init, clearHash, last.id);
      UpsertOneKeeps(Upserted(t, target, init, clearHash), target, last, clearHash);
    }
  }

  lemma UpdateKeeps(t: Table, batch: seq<Change>)
    requires UniqueIds(t) && Forest(t)
    ensures UniqueIds(Updated(t, batch)) && Forest(Updated(t, batch))
  {
  }

  lemma DeleteKeeps(t: Table, target: Target, paths: set<string>)
    requires UniqueIds(t) && Forest(t)
    ensures UniqueIds(Deleted(t, target, paths)) && Forest(Deleted(t, target, paths))
    ensures Linked(t, target) ==> Linked(Deleted(t, target, paths), target)
  {
  }

  lemma ResolveKeeps(t: Table, target: Target)
    requires UniqueIds(t) && Forest(t)
    ensures UniqueIds(Resolved(t, target)) && Forest(Resolved(t, target)) && Linked(Resolved(t, target), target)
  {
  }

  lemma {:induction false} CondemnedInSurvivors(t: Table, k: Key, target: Target, first: set<string>, second: set<string>)
    requires UniqueIds(t) && Forest(t) && k in t && !Condemned(t, k, target, first)
    ensures var d := Deleted(t, target, first);
            Forest(d) && k in d && (Condemned(d, k, target, second) <==> Condemned(t, k, target, first + second))
    decreases |k.path|
  {
    DeleteKeeps(t, target, first);
    ParentPathShorter(k.path);
    if t[k].parent.Some? {
      CondemnedInSurvivors(t, ParentKey(k), target, first, second);
    }
  }

  lemma {:induction false} CondemnedMore(t: Table, k: Key, target: Target, first: set<string>, second: set<string>)
    requires Forest(t) && k in t && Condemned(t, k, target, first)
    ensures Condemned(t, k, target, first + second)
    decreases |k.path|
  {
    ParentPathShorter(k.path);
    if !(k.target == target && k.path in first) {
      CondemnedMore(t, ParentKey(k), target, first, second);
    }
  }

  /** Deleting in batches is deleting everything at once. */
  lemma DeletedInBatches(t: Table, target: Target, first: set<string>, second: set<string>)
    requires UniqueIds(t) && Forest(t)
    ensures Forest(Deleted(t, target, first))
    ensures Deleted(Deleted(t, target, first), target, second) == Deleted(t, target, first + second)
  {
    DeleteKeeps(t, target, first);
    forall k | k in t
      ensures k in Deleted(Deleted(t, target, first), target, second) <==> k in Deleted(t, target, first + second)
    {
      if Condemned(t, k, target, first) {
        CondemnedMore(t, k, target, first, second);
      } else {
        CondemnedInSurvivors(t, k, target, first, second);
      }
    }
  }

  lemma {:induction false} OtherTargetsSafe(t: Table, k: Key, target: Target, paths: set<string>)
    requires Forest(t) && k in t && k.target != target
    ensures !Condemned(t, k, target, paths)
    decreases |k.path|
  {
    ParentPathShorter(k.path);
    if t[k].parent.Some? {
      OtherTargetsSafe(t, ParentKey(k), target, paths);
    }
  }
}
