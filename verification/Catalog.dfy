/**
  The event tables of the analytics catalog (`analytics/flush.py`, `analytics/compaction.py`): rows
  leave the database by flushes behind a saved cursor, and compactions merge the files they end up in.
  What the catalog then holds, over any run, with the failures that the code lets pass.
 */
module Catalog {
  import opened Results

  datatype Partition = Partition(tenant: string, date: int)

  /** A row of the source; the stamp is the column the cursor is compared with. */
  datatype Row = Row(id: nat, stamp: int, partition: Partition)

  /** A file: its directory, and the number in its name. */
  datatype File = File(dir: Partition, name: int)

  type Files = map<File, multiset<Row>>

  datatype State = State(source: seq<Row>, cursor: Option<int>, files: Files)

  function Keep(rows: seq<Row>, p: Row -> bool): seq<Row> {
    if rows == [] then []
    else
      var init, last := Keep(rows[..|rows| - 1], p), rows[|rows| - 1];
      if p(last) then init + [last] else init
  }

  predicate Behind(cursor: Option<int>, row: Row) {
    cursor.Some? && row.stamp <= cursor.value
  }

  function NotBehind(cursor: Option<int>): Row -> bool {
    (r: Row) => !Behind(cursor, r)
  }

  function IsBehind(cursor: Option<int>): Row -> bool {
    (r: Row) => Behind(cursor, r)
  }

  function IsIn(partitions: set<Partition>): Row -> bool {
    (r: Row) => r.partition in partitions
  }

  /** What a flush reads: everything for the first one, then what is stamped after the cursor. */
  function Newer(rows: seq<Row>, cursor: Option<int>): seq<Row> {
    Keep(rows, NotBehind(cursor))
  }

  function UpTo(rows: seq<Row>, cursor: Option<int>): seq<Row> {
    Keep(rows, IsBehind(cursor))
  }

  function In(rows: seq<Row>, partitions: set<Partition>): seq<Row> {
    Keep(rows, IsIn(partitions))
  }

  function Partitions(rows: seq<Row>): set<Partition> {
    set r | r in rows :: r.partition
  }

  /** The files of some of the partitions that rows are grouped into. */
  function Groups(rows: seq<Row>, partitions: set<Partition>, names: Partition -> int): Files {
    map f | f in (set p | p in partitions :: File(p, names(p))) :: multiset(In(rows, {f.dir}))
  }

  function Latest(rows: seq<Row>): int
    requires rows != []
  {
    var last := rows[|rows| - 1].stamp;
    if |rows| == 1 then last
    else
      var before := Latest(rows[..|rows| - 1]);
      if before < last then last else before
  }

  function AfterFlush(s: State, names: Partition -> int): State {
    var rows := Newer(s.source, s.cursor);
    if rows == [] then s
    else s.(files := s.files + Groups(rows, Partitions(rows), names), cursor := Some(Latest(rows)))
  }

  /** A flush that fails after some of its files are written saves no cursor. */
  function AfterBrokenFlush(s: State, written: set<Partition>, names: Partition -> int): State {
    var rows := Newer(s.source, s.cursor);
    s.(files := s.files + Groups(rows, Partitions(rows) * written, names))
  }

  // ----- compaction

  /** What fails during a compaction: reads, deletes and the write of the merged file. */
  datatype Faults = Faults(unreadable: set<File>, undeletable: set<File>, unwritable: set<Partition>)

  function FilesOf(files: Files, dir: Partition): set<File> {
    set f | f in files && f.dir == dir
  }

  ghost function Only(files: Files, kept: set<File>): Files {
    map f | f in files && f in kept :: files[f]
  }

  /** All rows of all files. */
  ghost function Content(files: Files): multiset<Row>
    decreases |files.Keys|
  {
    if files == map[] then multiset{}
    else
      var f :| f in files;
      assert (files - {f}).Keys == files.Keys - {f};
      Content(files - {f}) + files[f]
  }

  /** The merge happens: enough files, one of them readable, and the merged file can be written. */
  predicate Merges(files: Files, dir: Partition, threshold: int, faults: Faults) {
    && |FilesOf(files, dir)| >= threshold
    && FilesOf(files, dir) - faults.unreadable != {}
    && dir !in faults.unwritable
  }

  ghost function Merged(files: Files, dir: Partition, name: int, faults: Faults): Files {
    var olds, dest := FilesOf(files, dir), File(dir, name);
    files[dest := Content(Only(files, olds - faults.unreadable))] - (olds - faults.undeletable)
  }

  /** Every old file is deleted, also one that could not be read. */
  ghost function AfterCompaction(files: Files, dir: Partition, threshold: int, name: int, faults: Faults): Files {
    if Merges(files, dir, threshold, faults) then Merged(files, dir, name, faults) else files
  }

  /** The rows of files that were deleted without having been read. */
  ghost function LostBy(files: Files, dir: Partition, threshold: int, faults: Faults): multiset<Row> {
    if Merges(files, dir, threshold, faults)
    then Content(Only(files, FilesOf(files, dir) * faults.unreadable - faults.undeletable))
    else multiset{}
  }

  /** The rows of files that were merged and then could not be deleted. */
  ghost function DoubledBy(files: Files, dir: Partition, threshold: int, faults: Faults): multiset<Row> {
    if Merges(files, dir, threshold, faults)
    then Content(Only(files, FilesOf(files, dir) * faults.undeletable - faults.unreadable))
    else multiset{}
  }

  // ----- the content of files

  lemma {:induction false} ContentOne(files: Files, f: File)
    requires f in files
    ensures Content(files) == Content(files - {f}) + files[f]
    decreases |files.Keys|
  {
    var g :| g in files && Content(files) == Content(files - {g}) + files[g];
    if g != f {
      assert (files - {g}).Keys == files.Keys - {g} && (files - {f}).Keys == files.Keys - {f};
      ContentOne(files - {g}, f);
      ContentOne(files - {f}, g);
      assert files - {g} - {f} == files - {f} - {g};
    }
  }

  lemma ContentPut(files: Files, f: File, rows: multiset<Row>)
    requires f !in files
    ensures Content(files[f := rows]) == Content(files) + rows
  {
    ContentOne(files[f := rows], f);
    assert files[f := rows] - {f} == files;
  }

  lemma JoinOneMore(a: Files, b: Files, f: File)
    requires f in b && f !in a
    ensures b == (b - {f})[f := b[f]]
    ensures a + b == (a + (b - {f}))[f := b[f]]
  {
  }

  lemma {:induction false} ContentJoin(a: Files, b: Files)
    requires a.Keys !! b.Keys
    ensures Content(a + b) == Content(a) + Content(b)
    decreases |b.Keys|
  {
    NoContent();
    hide Content;
    if b == map[] {
      assert a + b == a;
    } else {
      var f :| f in b;
      var rest, rows := b - {f}, b[f];
      assert rest.Keys == b.Keys - {f};
      ContentJoin(a, rest);
      JoinOneMore(a, b, f);
      ContentPut(rest, f, rows);
      ContentPut(a + rest, f, rows);
    }
  }

  lemma NoContent()
    ensures Content(map[]) == multiset{}
    ensures forall files: Files :: Content(Only(files, {})) == multiset{}
  {
    forall files: Files
      ensures Content(Only(files, {})) == multiset{}
    {
      assert Only(files, {}) == map[];
    }
  }

  lemma NoContentAt(files: Files)
    ensures Content(Only(files, {})) == multiset{}
  {
    NoContent();
  }

  /** Files apart: what is kept and what is not. */
  lemma ContentApart(files: Files, kept: set<File>)
    ensures Content(files) == Content(files - kept) + Content(Only(files, kept))
  {
    assert files == (files - kept) + Only(files, kept);
    ContentJoin(files - kept, Only(files, kept));
  }

  lemma OnlyJoin(files: Files, a: set<File>, b: set<File>)
    requires a !! b
    ensures Content(Only(files, a + b)) == Content(Only(files, a)) + Content(Only(files, b))
  {
    assert Only(files, a + b) == Only(files, a) + Only(files, b);
    ContentJoin(Only(files, a), Only(files, b));
  }

  /**
    The exact account of one compaction, whatever fails: the catalog loses the rows of the files
    that were deleted unread and doubles those of the files that were merged and stayed.
   */
  lemma CompactionAccounts(files: Files, dir: Partition, threshold: int, name: int, faults: Faults)
    requires File(dir, name) !in files
    ensures Content(AfterCompaction(files, dir, threshold, name, faults)) + LostBy(files, dir, threshold, faults)
         == Content(files) + DoubledBy(files, dir, threshold, faults)
  {
    if Merges(files, dir, threshold, faults) {
      MergeAccounts(files, FilesOf(files, dir), File(dir, name), faults.unreadable, faults.undeletable);
    }
  }

  lemma WriteThenDelete(files: Files, dest: File, merged: multiset<Row>, deleted: set<File>)
    requires dest !in deleted
    ensures files[dest := merged] - deleted == (files - deleted)[dest := merged]
  {
  }

  lemma Exchange<T(!new)>(kept: multiset<T>, a: multiset<T>, b: multiset<T>, c: multiset<T>, d: multiset<T>)
    requires a + b == c + d
    ensures (kept + a) + b == (kept + c) + d
  {
    assert (kept + a) + b == kept + (a + b) && (kept + c) + d == kept + (c + d);
  }

  lemma MergeAccounts(files: Files, olds: set<File>, dest: File, unreadable: set<File>, undeletable: set<File>)
    requires dest !in files && dest !in olds
    ensures Content(files[dest := Content(Only(files, olds - unreadable))] - (olds - undeletable))
              + Content(Only(files, olds * unreadable - undeletable))
         == Content(files) + Content(Only(files, olds * undeletable - unreadable))
  {
    hide Content, Only;
    var read, deleted := olds - unreadable, olds - undeletable;
    var lost, doubled := olds * unreadable - undeletable, olds * undeletable - unreadable;
    var merged := Content(Only(files, read));
    WriteThenDelete(files, dest, merged, deleted);
    ContentPut(files - deleted, dest, merged);
    ContentApart(files, deleted);
    OnlyJoin(files, read, lost);
    OnlyJoin(files, deleted, doubled);
    assert read + lost == deleted + doubled;
    Exchange(Content(files - deleted), merged, Content(Only(files, lost)), Content(Only(files, deleted)), Content(Only(files, doubled)));
  }

  /** Without faults a compaction leaves one file in the directory, with the same rows. */
  lemma CompactedToOne(files: Files, dir: Partition, threshold: int, name: int)
    requires File(dir, name) !in files && |FilesOf(files, dir)| >= threshold && FilesOf(files, dir) != {}
    ensures var after := AfterCompaction(files, dir, threshold, name, Faults({}, {}, {}));
            && Content(after) == Content(files)
            && FilesOf(after, dir) == {File(dir, name)}
            && after - {File(dir, name)} == files - FilesOf(files, dir)
  {
    var faults := Faults({}, {}, {});
    FaultlessAccounts(files, dir, threshold, faults);
    CompactionAccounts(files, dir, threshold, name, faults);
    var held, before := Content(AfterCompaction(files, dir, threshold, name, faults)), Content(files);
    assert held + multiset{} == held && before + multiset{} == before;
    hide Content, Only, LostBy, DoubledBy;
    var olds := FilesOf(files, dir);
    assert olds - faults.unreadable == olds && olds - faults.undeletable == olds;
  }

  lemma FaultlessAccounts(files: Files, dir: Partition, threshold: int, faults: Faults)
    requires faults.unreadable == {} && faults.undeletable == {}
    ensures LostBy(files, dir, threshold, faults) == DoubledBy(files, dir, threshold, faults) == multiset{}
  {
    NoContentAt(files);
    hide Content, Only, Merges;
    var olds := FilesOf(files, dir);
    assert olds * faults.unreadable - faults.undeletable == {} && olds * faults.undeletable - faults.unreadable == {};
  }

  // ----- the grouping of rows

  lemma {:induction false} KeepBoth(rows: seq<Row>, all: Row -> bool, p: Row -> bool, q: Row -> bool)
    requires forall r :: r in rows ==> (all(r) <==> p(r) || q(r)) && !(p(r) && q(r))
    ensures multiset(Keep(rows, all)) == multiset(Keep(rows, p)) + multiset(Keep(rows, q))
  {
    if rows != [] {
      KeepBoth(rows[..|rows| - 1], all, p, q);
    }
  }

  lemma {:induction false} KeepAll(rows: seq<Row>, p: Row -> bool)
    requires forall r :: r in rows ==> p(r)
    ensures Keep(rows, p) == rows
  {
    if rows != [] {
      KeepAll(rows[..|rows| - 1], p);
      assert rows == rows[..|rows| - 1] + [rows[|rows| - 1]];
    }
  }

  lemma {:induction false} KeepMembers(rows: seq<Row>, p: Row -> bool)
    ensures forall r :: r in Keep(rows, p) <==> r in rows && p(r)
  {
    if rows != [] {
      KeepMembers(rows[..|rows| - 1], p);
      assert rows == rows[..|rows| - 1] + [rows[|rows| - 1]];
    }
  }

  lemma {:induction false} KeepNone(rows: seq<Row>, p: Row -> bool)
    requires forall r :: r in rows ==> !p(r)
    ensures Keep(rows, p) == []
  {
    if rows != [] {
      KeepNone(rows[..|rows| - 1], p);
    }
  }

  lemma {:induction false} KeepConcat(a: seq<Row>, b: seq<Row>, p: Row -> bool)
    ensures Keep(a + b, p) == Keep(a, p) + Keep(b, p)
  {
    if b == [] {
      assert a + b == a;
    } else {
      KeepConcat(a, b[..|b| - 1], p);
      assert (a + b)[..|a + b| - 1] == a + b[..|b| - 1];
    }
  }

  lemma GroupsOneMore(rows: seq<Row>, partitions: set<Partition>, p: Partition, names: Partition -> int)
    requires p in partitions
    ensures var groups, f := Groups(rows, partitions, names), File(p, names(p));
            && f in groups && groups[f] == multiset(In(rows, {p}))
            && groups - {f} == Groups(rows, partitions - {p}, names)
  {
    hide In;
    var groups, f := Groups(rows, partitions, names), File(p, names(p));
    var rest := Groups(rows, partitions - {p}, names);
    assert (groups - {f}).Keys == rest.Keys;
  }

  /** Each row of the written partitions is in exactly one of the files. */
  lemma {:induction false} GroupsContent(rows: seq<Row>, partitions: set<Partition>, names: Partition -> int)
    ensures Content(Groups(rows, partitions, names)) == multiset(In(rows, partitions))
  {
    if partitions == {} {
      NoContent();
      assert Groups(rows, {}, names) == map[];
      KeepNone(rows, IsIn(partitions));
    } else {
      var p :| p in partitions;
      var rest, f := partitions - {p}, File(p, names(p));
      GroupsContent(rows, rest, names);
      InOneMore(rows, rest, p);
      assert partitions == rest + {p};
      GroupsOneMore(rows, partitions, p, names);
      ContentOne(Groups(rows, partitions, names), f);
      hide *;
    }
  }

  lemma InOneMore(rows: seq<Row>, partitions: set<Partition>, p: Partition)
    requires p !in partitions
    ensures multiset(In(rows, partitions + {p})) == multiset(In(rows, partitions)) + multiset(In(rows, {p}))
  {
    KeepBoth(rows, IsIn(partitions + {p}), IsIn(partitions), IsIn({p}));
  }

  lemma {:induction false} LatestIsLargest(rows: seq<Row>)
    requires rows != []
    ensures forall r :: r in rows ==> r.stamp <= Latest(rows)
    ensures exists r :: r in rows && r.stamp == Latest(rows)
  {
    var init, last := rows[..|rows| - 1], rows[|rows| - 1];
    assert last in rows;
    if |rows| > 1 {
      LatestIsLargest(init);
      assert rows == init + [last];
    }
  }

  // ----- runs

  datatype Event =
    | Inserted(rows: seq<Row>)
    | Flushed(names: Partition -> int)
    | BrokenFlush(written: set<Partition>, names: Partition -> int)
    | Compacted(dir: Partition, threshold: int, name: int, faults: Faults)

  ghost function Next(s: State, event: Event): State {
    match event
    case Inserted(rows) => s.(source := s.source + rows)
    case Flushed(names) => AfterFlush(s, names)
    case BrokenFlush(written, names) => AfterBrokenFlush(s, written, names)
    case Compacted(dir, threshold, name, faults) =>
      s.(files := AfterCompaction(s.files, dir, threshold, name, faults))
  }

  ghost function After(history: seq<Event>): State {
    if history == [] then State([], None, map[]) else Next(After(history[..|history| - 1]), history[|history| - 1])
  }

  /** The names of new files are new. */
  ghost predicate FreshNames(s: State, event: Event) {
    match event
    case Inserted(_) => true
    case Flushed(names) => forall p :: File(p, names(p)) !in s.files
    case BrokenFlush(_, names) => forall p :: File(p, names(p)) !in s.files
    case Compacted(dir, _, name, _) => File(dir, name) !in s.files
  }

  ghost predicate FreshRun(history: seq<Event>) {
    history == [] ||
    (FreshRun(history[..|history| - 1]) && FreshNames(After(history[..|history| - 1]), history[|history| - 1]))
  }

  /** Rows that come too late: stamped at or before the cursor that is saved when they are inserted. */
  function LateIn(s: State, event: Event): multiset<Row> {
    match event
    case Inserted(rows) => multiset(UpTo(rows, s.cursor))
    case Flushed(_) => multiset{}
    case BrokenFlush(_, _) => multiset{}
    case Compacted(_, _, _, _) => multiset{}
  }

  ghost function LostIn(s: State, event: Event): multiset<Row> {
    match event
    case Inserted(_) => multiset{}
    case Flushed(_) => multiset{}
    case BrokenFlush(_, _) => multiset{}
    case Compacted(dir, threshold, _, faults) => LostBy(s.files, dir, threshold, faults)
  }

  ghost function DoubledIn(s: State, event: Event): multiset<Row> {
    match event
    case Inserted(_) => multiset{}
    case Flushed(_) => multiset{}
    case BrokenFlush(written, _) => multiset(In(Newer(s.source, s.cursor), Partitions(Newer(s.source, s.cursor)) * written))
    case Compacted(dir, threshold, _, faults) => DoubledBy(s.files, dir, threshold, faults)
  }

  ghost function Missing(history: seq<Event>): multiset<Row> {
    if history == [] then multiset{}
    else
      var s, last := After(history[..|history| - 1]), history[|history| - 1];
      Missing(history[..|history| - 1]) + LateIn(s, last) + LostIn(s, last)
  }

  ghost function Extra(history: seq<Event>): multiset<Row> {
    if history == [] then multiset{}
    else Extra(history[..|history| - 1]) + DoubledIn(After(history[..|history| - 1]), history[|history| - 1])
  }

  lemma InsertAccounts(s: State, rows: seq<Row>)
    ensures multiset(UpTo(s.source + rows, s.cursor)) == multiset(UpTo(s.source, s.cursor)) + multiset(UpTo(rows, s.cursor))
  {
    KeepConcat(s.source, rows, IsBehind(s.cursor));
  }

  lemma NothingBehindNone(rows: seq<Row>)
    ensures UpTo(rows, None) == []
  {
    KeepNone(rows, IsBehind(None));
  }

  lemma CursorSplits(rows: seq<Row>, cursor: Option<int>)
    ensures multiset(rows) == multiset(UpTo(rows, cursor)) + multiset(Newer(rows, cursor))
  {
    KeepAll(rows, (r: Row) => true);
    KeepBoth(rows, (r: Row) => true, IsBehind(cursor), NotBehind(cursor));
  }

  /** After a flush everything is behind the cursor. */
  lemma CursorAfterFlush(s: State)
    requires Newer(s.source, s.cursor) != []
    ensures UpTo(s.source, Some(Latest(Newer(s.source, s.cursor)))) == s.source
  {
    var rows := Newer(s.source, s.cursor);
    var cursor := Some(Latest(rows));
    LatestIsLargest(rows);
    KeepMembers(s.source, NotBehind(s.cursor));
    assert rows[0] in rows;
    forall r | r in s.source
      ensures Behind(cursor, r)
    {
      assert r in rows || Behind(s.cursor, r);
    }
    KeepAll(s.source, IsBehind(cursor));
  }

  lemma WritingAccounts(files: Files, rows: seq<Row>, partitions: set<Partition>, names: Partition -> int)
    requires forall p :: File(p, names(p)) !in files
    ensures Content(files + Groups(rows, partitions, names)) == Content(files) + multiset(In(rows, partitions))
  {
    GroupsContent(rows, partitions, names);
    ContentJoin(files, Groups(rows, partitions, names));
  }

  lemma AllPartitions(rows: seq<Row>)
    ensures In(rows, Partitions(rows)) == rows
  {
    KeepAll(rows, IsIn(Partitions(rows)));
  }

  ghost function Balance(s: State): multiset<Row> {
    multiset(UpTo(s.source, s.cursor))
  }

  lemma StepAccounts(s: State, event: Event)
    requires FreshNames(s, event)
    ensures Content(Next(s, event).files) + Balance(s) + LateIn(s, event) + LostIn(s, event)
         == Content(s.files) + Balance(Next(s, event)) + DoubledIn(s, event)
  {
    match event
    case Inserted(more) => InsertedAccounts(s, more);
    case Flushed(names) =>
      FlushAccounts(s, names);
      hide *;
    case BrokenFlush(written, names) => BrokenAccounts(s, written, names);
    case Compacted(dir, threshold, name, faults) =>
      CompactionAccounts(s.files, dir, threshold, name, faults);
      hide Content, UpTo, AfterCompaction, LostBy, DoubledBy;
      Beside(Balance(s), Content(Next(s, event).files), LostIn(s, event), Content(s.files), DoubledIn(s, event));
  }

  lemma Beside<T(!new)>(b: multiset<T>, c': multiset<T>, lost: multiset<T>, c: multiset<T>, doubled: multiset<T>)
    requires c' + lost == c + doubled
    ensures c' + b + multiset{} + lost == c + b + doubled
  {
    Exchange(b, c', lost, c, doubled);
    assert b + c' == c' + b && b + c == c + b;
  }

  lemma InsertedAccounts(s: State, more: seq<Row>)
    ensures var t := Next(s, Inserted(more));
            Content(t.files) + Balance(s) + LateIn(s, Inserted(more)) + multiset{} == Content(s.files) + Balance(t) + multiset{}
  {
    InsertAccounts(s, more);
    hide Content, UpTo;
  }

  lemma BrokenAccounts(s: State, written: set<Partition>, names: Partition -> int)
    requires forall p :: File(p, names(p)) !in s.files
    ensures var t := AfterBrokenFlush(s, written, names);
            Content(t.files) + Balance(s) + multiset{} + multiset{}
              == Content(s.files) + Balance(t) + DoubledIn(s, BrokenFlush(written, names))
  {
    var rows := Newer(s.source, s.cursor);
    WritingAccounts(s.files, rows, Partitions(rows) * written, names);
    var t, doubled := AfterBrokenFlush(s, written, names), DoubledIn(s, BrokenFlush(written, names));
    assert Content(t.files) == Content(s.files) + doubled && Balance(t) == Balance(s);
    hide *;
    Beside(Balance(s), Content(t.files), multiset{}, Content(s.files), doubled);
  }

  lemma FlushAccounts(s: State, names: Partition -> int)
    requires forall p :: File(p, names(p)) !in s.files
    ensures Content(AfterFlush(s, names).files) + Balance(s) == Content(s.files) + Balance(AfterFlush(s, names))
  {
    var rows := Newer(s.source, s.cursor);
    if rows != [] {
      WritingAccounts(s.files, rows, Partitions(rows), names);
      AllPartitions(rows);
      CursorAfterFlush(s);
      CursorSplits(s.source, s.cursor);
      hide Content, Keep, In, UpTo, Newer, Groups;
    }
  }

  lemma Carry<T(!new)>(a: multiset<T>, b: multiset<T>, c: multiset<T>, d: multiset<T>,
                 a': multiset<T>, b': multiset<T>, c': multiset<T>, d': multiset<T>)
    requires a + b == c + d && a' + c + b' == a + c' + d'
    ensures a' + (b + b') == c' + (d + d')
  {
    forall x: T
      ensures (a' + (b + b'))[x] == (c' + (d + d'))[x]
    {
      assert (a + b)[x] == (c + d)[x] && (a' + c + b')[x] == (a + c' + d')[x];
    }
  }

  lemma Cancel<T(!new)>(a: multiset<T>, b: multiset<T>, c: multiset<T>, d: multiset<T>)
    requires a + b == c + d
    ensures a == c <==> b == d
  {
    assert a + b - a == b && a + b - b == a && c + d - c == d && c + d - d == c;
  }

  /**
    Conservation over every run: what the catalog holds, and what is missing, is exactly the source up
    to the cursor and what is held twice.
   */
  lemma {:induction false} Conservation(history: seq<Event>)
    requires FreshRun(history)
    ensures Content(After(history).files) + Missing(history) == Balance(After(history)) + Extra(history)
  {
    if history != [] {
      var init, last := history[..|history| - 1], history[|history| - 1];
      Conservation(init);
      var s, t := After(init), After(history);
      StepAccounts(s, last);
      hide Content, Balance, Next, LateIn, LostIn, DoubledIn;
      Carry(Content(s.files), Missing(init), Balance(s), Extra(init),
        Content(t.files), LateIn(s, last) + LostIn(s, last), Balance(t), DoubledIn(s, last));
    } else {
      NothingBehindNone([]);
    }
  }

  /** The catalog holds the source up to the cursor, each row once. */
  ghost predicate Exact(s: State) {
    Content(s.files) == Balance(s)
  }

  /** Files without rows. */
  ghost predicate NoRows(files: Files, some: set<File>) {
    forall f :: f in files && f in some ==> files[f] == multiset{}
  }

  /**
    What a step does no harm by: it inserts no row at or before the cursor, breaks off no flush that has
    written rows, deletes no file with rows that it has not read, and leaves no file with rows that it
    has merged.  All of this can be told before the step.
   */
  ghost predicate Harmless(s: State, event: Event) {
    match event
    case Inserted(rows) => forall r :: r in rows ==> !Behind(s.cursor, r)
    case Flushed(_) => true
    case BrokenFlush(written, _) => forall r :: r in Newer(s.source, s.cursor) ==> r.partition !in written
    case Compacted(dir, threshold, _, faults) =>
      Merges(s.files, dir, threshold, faults) ==>
        && NoRows(s.files, FilesOf(s.files, dir) * faults.unreadable - faults.undeletable)
        && NoRows(s.files, FilesOf(s.files, dir) * faults.undeletable - faults.unreadable)
  }

  lemma EmptyIff(rows: seq<Row>, p: Row -> bool)
    ensures multiset(Keep(rows, p)) == multiset{} <==> forall r :: r in rows ==> !p(r)
  {
    KeepMembers(rows, p);
    if multiset(Keep(rows, p)) == multiset{} {
      forall r | r in rows
        ensures !p(r)
      {
        assert r !in multiset(Keep(rows, p));
      }
    } else {
      var r :| r in multiset(Keep(rows, p));
      assert r in Keep(rows, p);
    }
  }

  lemma NoRowsIff(files: Files, some: set<File>)
    ensures Content(Only(files, some)) == multiset{} <==> NoRows(files, some)
  {
    var only := Only(files, some);
    ContentMembers(only);
    if Content(only) == multiset{} {
      forall f | f in files && f in some
        ensures files[f] == multiset{}
      {
        assert forall r :: r in only[f] ==> r in Content(only);
      }
    }
  }

  /** Of rows that are held at most once, different files hold different ones. */
  lemma LostIsNotDoubled(files: Files, a: set<File>, b: set<File>)
    requires a !! b && forall r :: Content(files)[r] <= 1
    ensures Content(Only(files, a)) == Content(Only(files, b)) ==>
              Content(Only(files, a)) == Content(Only(files, b)) == multiset{}
  {
    OnlyJoin(files, a, b);
    ContentApart(files, a + b);
    hide Content, Only;
    var x, y, all := Content(Only(files, a)), Content(Only(files, b)), Content(files);
    assert forall r :: x[r] + y[r] == Content(Only(files, a + b))[r] <= all[r];
  }

  /** A step is harmless if and only if what it leaves missing is what it leaves doubled: nothing, both. */
  lemma HarmlessIff(s: State, event: Event)
    requires forall r :: Content(s.files)[r] <= 1
    ensures Harmless(s, event) <==> LateIn(s, event) + LostIn(s, event) == DoubledIn(s, event)
  {
    match event
    case Inserted(rows) =>
      EmptyIff(rows, IsBehind(s.cursor));
      hide Keep;
      assert LateIn(s, event) + multiset{} == LateIn(s, event);
    case Flushed(_) =>
    case BrokenFlush(written, _) =>
      var rows := Newer(s.source, s.cursor);
      EmptyIff(rows, IsIn(Partitions(rows) * written));
      hide Keep, Newer;
      var none: multiset<Row> := multiset{};
      assert none + none == none;
    case Compacted(dir, threshold, _, faults) =>
      if Merges(s.files, dir, threshold, faults) {
        var lost := FilesOf(s.files, dir) * faults.unreadable - faults.undeletable;
        var doubled := FilesOf(s.files, dir) * faults.undeletable - faults.unreadable;
        NoRowsIff(s.files, lost);
        NoRowsIff(s.files, doubled);
        LostIsNotDoubled(s.files, lost, doubled);
        hide Content, Only, NoRows;
        var x := LostIn(s, event);
        assert LateIn(s, event) + x == x;
      }
  }

  /** From an exact catalog a step leads to an exact one if and only if it is harmless. */
  lemma StepExactIff(s: State, event: Event)
    requires FreshNames(s, event) && Exact(s) && forall r :: multiset(s.source)[r] <= 1
    ensures Exact(Next(s, event)) <==> Harmless(s, event)
  {
    CursorSplits(s.source, s.cursor);
    assert forall r :: Balance(s)[r] <= multiset(s.source)[r];
    HarmlessIff(s, event);
    StepAccounts(s, event);
    var c, b, c', b' := Content(s.files), Balance(s), Content(Next(s, event).files), Balance(Next(s, event));
    var late, lost, doubled := LateIn(s, event), LostIn(s, event), DoubledIn(s, event);
    hide *;
    assert (c' + b + late + lost) == c' + (late + lost) + b && c + b' + doubled == b' + doubled + c;
    Trim(c' + (late + lost), b' + doubled, b, c);
    Cancel(c', late + lost, b', doubled);
    assert Exact(Next(s, event)) <==> c' == b' by {
      ExactWhen(Next(s, event));
    }
  }

  lemma ExactWhen(s: State)
    ensures Exact(s) <==> Content(s.files) == Balance(s)
  {
  }

  lemma Trim<T(!new)>(a: multiset<T>, b: multiset<T>, c: multiset<T>, d: multiset<T>)
    requires a + c == b + d && c == d
    ensures a == b
  {
    assert a + c - c == a && b + d - d == b;
  }

  /** No row is inserted twice. */
  ghost predicate DistinctRows(history: seq<Event>) {
    forall r :: multiset(After(history).source)[r] <= 1
  }

  lemma {:induction false} SourceGrows(history: seq<Event>, k: nat)
    requires k <= |history|
    ensures multiset(After(history[..k]).source) <= multiset(After(history).source)
  {
    if k == |history| {
      assert history[..k] == history;
    } else {
      var init := history[..|history| - 1];
      SourceGrows(init, k);
      assert init[..k] == history[..k];
      hide AfterFlush, AfterBrokenFlush, AfterCompaction;
      SourceAfter(After(init), history[|history| - 1]);
    }
  }

  lemma SourceAfter(s: State, event: Event)
    ensures multiset(s.source) <= multiset(Next(s, event).source)
  {
  }

  lemma {:induction false} FreshPrefix(history: seq<Event>, k: nat)
    requires FreshRun(history) && k < |history|
    ensures FreshRun(history[..k]) && FreshNames(After(history[..k]), history[k])
  {
    var init := history[..|history| - 1];
    if k < |init| {
      FreshPrefix(init, k);
      assert init[..k] == history[..k];
    }
  }

  ghost predicate AlwaysExact(history: seq<Event>) {
    forall i :: 0 <= i <= |history| ==> Exact(After(history[..i]))
  }

  ghost predicate AlwaysHarmless(history: seq<Event>) {
    forall i :: 0 <= i < |history| ==> Harmless(After(history[..i]), history[i])
  }

  lemma NextOf(history: seq<Event>, i: nat)
    requires i < |history|
    ensures After(history[..i + 1]) == Next(After(history[..i]), history[i])
  {
    assert history[..i + 1][..i] == history[..i];
  }

  lemma StepOfRun(history: seq<Event>, i: nat)
    requires FreshRun(history) && DistinctRows(history) && i < |history| && Exact(After(history[..i]))
    ensures Exact(After(history[..i + 1])) <==> Harmless(After(history[..i]), history[i])
  {
    FreshPrefix(history, i);
    SourceGrows(history, i);
    NextOf(history, i);
    hide Exact, Harmless, After, Next, FreshRun, FreshNames;
    StepExactIff(After(history[..i]), history[i]);
  }

  lemma {:induction false} ExactUpTo(history: seq<Event>, i: nat)
    requires FreshRun(history) && DistinctRows(history) && AlwaysHarmless(history) && i <= |history|
    ensures Exact(After(history[..i]))
  {
    if i == 0 {
      NothingBehindNone([]);
      assert history[..0] == [];
    } else {
      ExactUpTo(history, i - 1);
      StepOfRun(history, i - 1);
    }
  }

  /**
    For distinct rows and fresh names: the catalog is exact after every step of a run if and only if
    every step is harmless.
   */
  lemma ExactIff(history: seq<Event>)
    requires FreshRun(history) && DistinctRows(history)
    ensures AlwaysExact(history) <==> AlwaysHarmless(history)
  {
    hide Exact, Harmless, After, FreshRun, DistinctRows;
    if AlwaysExact(history) {
      forall i | 0 <= i < |history|
        ensures Harmless(After(history[..i]), history[i])
      {
        StepOfRun(history, i);
      }
    }
    if AlwaysHarmless(history) {
      forall i | 0 <= i <= |history|
        ensures Exact(After(history[..i]))
      {
        ExactUpTo(history, i);
      }
    }
  }

  // ----- every row in the directory of its partition

  ghost predicate InPlace(files: Files) {
    forall f, r :: f in files && r in files[f] ==> r.partition == f.dir
  }

  lemma {:induction false} ContentMembers(files: Files)
    ensures forall r :: r in Content(files) <==> exists f :: f in files && r in files[f]
    decreases |files.Keys|
  {
    if files != map[] {
      var g :| g in files && Content(files) == Content(files - {g}) + files[g];
      assert (files - {g}).Keys == files.Keys - {g};
      ContentMembers(files - {g});
      forall r
        ensures r in Content(files) <==> exists f :: f in files && r in files[f]
      {
        if f :| f in files && r in files[f] {
          assert f == g || f in files - {g};
        }
      }
    }
  }

  lemma CompactionInPlace(files: Files, dir: Partition, threshold: int, name: int, faults: Faults)
    requires InPlace(files)
    ensures InPlace(AfterCompaction(files, dir, threshold, name, faults))
  {
    ContentMembers(Only(files, FilesOf(files, dir) - faults.unreadable));
  }

  lemma GroupsInPlace(rows: seq<Row>, partitions: set<Partition>, names: Partition -> int)
    ensures InPlace(Groups(rows, partitions, names))
  {
    forall f | f in Groups(rows, partitions, names)
      ensures forall r :: r in Groups(rows, partitions, names)[f] ==> r.partition == f.dir
    {
      KeepMembers(rows, IsIn({f.dir}));
      assert Groups(rows, partitions, names)[f] == multiset(In(rows, {f.dir}));
      forall r | r in Groups(rows, partitions, names)[f]
        ensures r.partition == f.dir
      {
        assert r in In(rows, {f.dir});
      }
    }
  }

  /** Over every run, fresh names or not: each row is in the directory of its tenant and date. */
  lemma {:induction false} RowsInPlace(history: seq<Event>)
    ensures InPlace(After(history).files)
  {
    if history != [] {
      var init, last := history[..|history| - 1], history[|history| - 1];
      RowsInPlace(init);
      var s := After(init);
      var rows := Newer(s.source, s.cursor);
      match last
      case Inserted(_) =>
      case Flushed(names) => GroupsInPlace(rows, Partitions(rows), names);
      case BrokenFlush(written, names) => GroupsInPlace(rows, Partitions(rows) * written, names);
      case Compacted(dir, threshold, name, faults) => CompactionInPlace(s.files, dir, threshold, name, faults);
    }
  }

  // ----- what can go wrong

  const HOME: Partition := Partition("t", 1)

  /** A compaction of two files, of which one cannot be read, deletes both and loses a row. */
  lemma UnreadFileIsLost(r0: Row, r1: Row)
    ensures var before: Files := map[File(HOME, 0) := multiset{r0}, File(HOME, 1) := multiset{r1}];
            && Content(before) == multiset{r0, r1}
            && Content(AfterCompaction(before, HOME, 2, 2, Faults({File(HOME, 0)}, {}, {}))) == multiset{r1}
  {
    hide *;
    TwoFiles(File(HOME, 0), multiset{r0}, File(HOME, 1), multiset{r1});
    assert multiset{r0} + multiset{r1} == multiset{r0, r1};
    OneFile(File(HOME, 1), multiset{r1});
    OneFile(File(HOME, 2), multiset{r1});
    UnreadMerge(multiset{r0}, multiset{r1});
  }

  lemma UnreadMerge(rows0: multiset<Row>, rows1: multiset<Row>)
    requires Content(map[File(HOME, 1) := rows1]) == rows1
    ensures AfterCompaction(map[File(HOME, 0) := rows0, File(HOME, 1) := rows1], HOME, 2, 2, Faults({File(HOME, 0)}, {}, {}))
         == map[File(HOME, 2) := rows1]
  {
    hide Content;
    var f0, f1, f2 := File(HOME, 0), File(HOME, 1), File(HOME, 2);
    var before: Files := map[f0 := rows0, f1 := rows1];
    var faults := Faults({f0}, {}, {});
    assert FilesOf(before, HOME) == {f0, f1} && {f0, f1} - faults.unreadable == {f1};
    assert Only(before, {f1}) == map[f1 := rows1];
    assert before[f2 := rows1] - {f0, f1} == map[f2 := rows1];
  }

  lemma TwoFiles(f: File, rows: multiset<Row>, g: File, more: multiset<Row>)
    requires f != g
    ensures Content(map[f := rows, g := more]) == rows + more
  {
    OneFile(f, rows);
    ContentPut(map[f := rows], g, more);
    hide Content;
    assert map[f := rows][g := more] == map[f := rows, g := more];
  }

  lemma OneFile(f: File, rows: multiset<Row>)
    ensures Content(map[f := rows]) == rows
  {
    NoContent();
    ContentPut(map[], f, rows);
    assert map[][f := rows] == map[f := rows];
  }

  /** A flush that breaks off after it has written a file leaves its rows to be written again. */
  lemma BrokenFlushDoubles(r: Row)
    requires r.partition == HOME
    ensures var history := [Inserted([r]), BrokenFlush({HOME}, p => 0), Flushed(p => 1)];
            FreshRun(history) && Content(After(history).files) == multiset{r, r}
  {
    hide *;
    var n0: Partition -> int, n1: Partition -> int := p => 0, p => 1;
    var history := [Inserted([r]), BrokenFlush({HOME}, n0), Flushed(n1)];
    var s0, s1 := State([], None, map[]), State([r], None, map[]);
    var f0, f1 := File(HOME, 0), File(HOME, 1);
    var s2 := State([r], None, map[f0 := multiset{r}]);
    var s3 := State([r], Some(r.stamp), map[f0 := multiset{r}, f1 := multiset{r}]);
    OneRowGroups(r, n0);
    OneRowGroups(r, n1);
    assert Next(s0, history[0]) == s1 && FreshNames(s0, history[0]) by {
      FirstInsert(r);
    }
    assert Next(s1, history[1]) == s2 && FreshNames(s1, history[1]) by {
      BreaksOff(r, n0);
    }
    assert Next(s2, history[2]) == s3 && FreshNames(s2, history[2]) by {
      FlushesAgain(r, n1);
    }
    ThreeSteps(history, s1, s2, s3);
    TwoFiles(f0, multiset{r}, f1, multiset{r});
    assert multiset{r} + multiset{r} == multiset{r, r};
  }

  lemma FirstInsert(r: Row)
    ensures Next(State([], None, map[]), Inserted([r])) == State([r], None, map[])
    ensures FreshNames(State([], None, map[]), Inserted([r]))
  {
  }

  lemma OneRowGroups(r: Row, names: Partition -> int)
    requires r.partition == HOME
    ensures Newer([r], None) == [r] && Partitions([r]) == {HOME} && Latest([r]) == r.stamp
    ensures Groups([r], {HOME}, names) == map[File(HOME, names(HOME)) := multiset{r}]
  {
    KeepAll([r], NotBehind(None));
    assert Partitions([r]) == {HOME} by {
      assert forall q :: q in [r] <==> q == r;
    }
    OneGroup(r, names);
    hide Keep, Groups;
  }

  lemma OneGroup(r: Row, names: Partition -> int)
    requires r.partition == HOME
    ensures Groups([r], {HOME}, names) == map[File(HOME, names(HOME)) := multiset{r}]
  {
    var f := File(HOME, names(HOME));
    KeepAll([r], IsIn({HOME}));
    assert In([r], {f.dir}) == [r] && multiset([r]) == multiset{r};
    hide In;
    assert (set p | p in {HOME} :: File(p, names(p))) == {f};
    assert Groups([r], {HOME}, names).Keys == {f};
  }

  lemma BreaksOff(r: Row, names: Partition -> int)
    requires r.partition == HOME && names(HOME) == 0
    ensures var s := State([r], None, map[]);
            && Next(s, BrokenFlush({HOME}, names)) == State([r], None, map[File(HOME, 0) := multiset{r}])
            && FreshNames(s, BrokenFlush({HOME}, names))
  {
    OneRowGroups(r, names);
    hide Groups, Newer, Partitions;
    assert {HOME} * {HOME} == {HOME};
  }

  lemma FlushesAgain(r: Row, names: Partition -> int)
    requires r.partition == HOME && forall p :: names(p) == 1
    ensures var s := State([r], None, map[File(HOME, 0) := multiset{r}]);
            && Next(s, Flushed(names))
               == State([r], Some(r.stamp), map[File(HOME, 0) := multiset{r}, File(HOME, 1) := multiset{r}])
            && FreshNames(s, Flushed(names))
  {
    OneRowGroups(r, names);
    hide Groups, Newer, Partitions, Latest;
    var before: Files := map[File(HOME, 0) := multiset{r}];
    assert before + map[File(HOME, 1) := multiset{r}] == map[File(HOME, 0) := multiset{r}, File(HOME, 1) := multiset{r}];
  }

  lemma ThreeSteps(history: seq<Event>, s1: State, s2: State, s3: State)
    requires |history| == 3 && Next(State([], None, map[]), history[0]) == s1
    requires Next(s1, history[1]) == s2 && Next(s2, history[2]) == s3
    requires FreshNames(State([], None, map[]), history[0]) && FreshNames(s1, history[1]) && FreshNames(s2, history[2])
    ensures After(history) == s3 && FreshRun(history)
  {
    hide Next, FreshNames;
    assert history[..0] == [] && history[..1][..0] == [] && history[..2][..1] == history[..1];
    assert After(history[..1]) == s1 && After(history[..2]) == s2;
    assert FreshRun(history[..1]) && FreshRun(history[..2]);
  }
}
