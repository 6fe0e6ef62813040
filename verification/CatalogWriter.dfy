/**
  The catalog's writers: the group-by and the cursor of a flush (`analytics/flush.py`), and the merge
  of small files (`analytics/compaction.py`), over a storage that maps names to files.
 */
module CatalogWriter {
  import opened Results
  import opened Catalog

  /** The rows at some positions. */
  function Taken(rows: seq<Row>, indices: seq<nat>): (taken: seq<Row>)
    requires forall k :: 0 <= k < |indices| ==> indices[k] < |rows|
    ensures |taken| == |indices|
  {
    seq(|indices|, k requires 0 <= k < |indices| => rows[indices[k]])
  }

  ghost predicate Sorted(rows: seq<Row>) {
    forall i, j :: 0 <= i < j < |rows| ==> rows[i].stamp <= rows[j].stamp
  }

  ghost predicate NoRepeats<T>(s: seq<T>) {
    forall i, j :: 0 <= i < j < |s| ==> s[i] != s[j]
  }

  // ----- the query's order does not matter

  lemma {:induction false} KeepCount(rows: seq<Row>, p: Row -> bool, x: Row)
    ensures multiset(Keep(rows, p))[x] == if p(x) then multiset(rows)[x] else 0
  {
    if rows != [] {
      KeepCount(rows[..|rows| - 1], p, x);
      assert rows == rows[..|rows| - 1] + [rows[|rows| - 1]];
    }
  }

  lemma SameRows(a: seq<Row>, b: seq<Row>, names: Partition -> int)
    requires multiset(a) == multiset(b)
    ensures Partitions(a) == Partitions(b)
    ensures forall partitions :: Groups(a, partitions, names) == Groups(b, partitions, names)
  {
    assert forall r :: r in a <==> r in multiset(a);
    assert forall r :: r in b <==> r in multiset(b);
    forall p: Partition
      ensures multiset(In(a, {p})) == multiset(In(b, {p}))
    {
      forall x: Row
        ensures multiset(In(a, {p}))[x] == multiset(In(b, {p}))[x]
      {
        KeepCount(a, IsIn({p}), x);
        KeepCount(b, IsIn({p}), x);
      }
    }
    hide In;
  }

  lemma LastIsLatest(rows: seq<Row>, fetched: seq<Row>)
    requires multiset(rows) == multiset(fetched) && Sorted(fetched) && rows != []
    ensures fetched != [] && Latest(rows) == fetched[|fetched| - 1].stamp
  {
    assert rows[0] in multiset(fetched);
    LatestIsLargest(rows);
    var r :| r in rows && r.stamp == Latest(rows);
    assert r in multiset(fetched) && fetched[|fetched| - 1] in multiset(rows);
    hide Latest;
  }

  lemma MoreContent(files: Files, kept: set<File>, f: File)
    requires f in files && f !in kept
    ensures Content(Only(files, kept + {f})) == Content(Only(files, kept)) + files[f]
  {
    ContentPut(Only(files, kept), f, files[f]);
    assert Only(files, kept + {f}) == Only(files, kept)[f := files[f]];
  }

  // ----- all partitions of a table

  ghost function CompactDirs(files: Files, dirs: seq<Partition>, threshold: int, names: Partition -> int, faults: Faults): Files {
    if dirs == [] then files
    else
      var before := CompactDirs(files, dirs[..|dirs| - 1], threshold, names, faults);
      var dir := dirs[|dirs| - 1];
      AfterCompaction(before, dir, threshold, names(dir), faults)
  }

  ghost function CountCompacted(files: Files, dirs: seq<Partition>, threshold: int, faults: Faults): nat {
    if dirs == [] then 0
    else
      CountCompacted(files, dirs[..|dirs| - 1], threshold, faults) +
      if CountsAsCompacted(files, dirs[|dirs| - 1], threshold, faults) then 1 else 0
  }

  /** A partition counts as compacted unless it has too few files or its write fails. */
  ghost predicate CountsAsCompacted(files: Files, dir: Partition, threshold: int, faults: Faults) {
    && |FilesOf(files, dir)| >= threshold
    && (dir in faults.unwritable ==> FilesOf(files, dir) <= faults.unreadable)
  }

  lemma {:induction false} UntouchedDirs(files: Files, dirs: seq<Partition>, threshold: int, names: Partition -> int, faults: Faults,
                                         other: Partition)
    requires other !in dirs
    ensures FilesOf(CompactDirs(files, dirs, threshold, names, faults), other) == FilesOf(files, other)
  {
    if dirs != [] {
      var init, dir := dirs[..|dirs| - 1], dirs[|dirs| - 1];
      UntouchedDirs(files, init, threshold, names, faults, other);
    }
  }

  /** A table's compaction is a run of compactions, one for each partition. */
  lemma {:induction false} TableCompactionIsRun(s: State, dirs: seq<Partition>, threshold: int, names: Partition -> int,
                                                faults: Faults, history: seq<Event>)
    requires s == After(history)
    ensures After(history + seq(|dirs|, i requires 0 <= i < |dirs| => Compacted(dirs[i], threshold, names(dirs[i]), faults)))
         == s.(files := CompactDirs(s.files, dirs, threshold, names, faults))
  {
    var events := seq(|dirs|, i requires 0 <= i < |dirs| => Compacted(dirs[i], threshold, names(dirs[i]), faults));
    if dirs == [] {
      assert history + events == history;
    } else {
      var init := dirs[..|dirs| - 1];
      TableCompactionIsRun(s, init, threshold, names, faults, history);
      var earlier := seq(|init|, i requires 0 <= i < |init| => Compacted(init[i], threshold, names(init[i]), faults));
      assert (history + events)[..|history + events| - 1] == history + earlier;
    }
  }

  /** The rows after the cursor, in stamp order. */
  ghost predicate Answers(fetched: seq<Row>, source: seq<Row>, cursor: Option<int>) {
    multiset(fetched) == multiset(Newer(source, cursor)) && Sorted(fetched)
  }

  /** What a flush of one table is given: its rows, the answer to its query, names, and what cannot be written. */
  datatype Input = Input(source: seq<Row>, fetched: seq<Row>, names: Partition -> int, unwritable: set<Partition>)

  /** What a flush did to one table. */
  ghost predicate WentThrough(i: Input, cursor: Option<int>, files: Files, cursor': Option<int>, files': Files) {
    State(i.source, cursor', files') == AfterFlush(State(i.source, cursor, files), i.names)
  }

  ghost predicate BrokeOff(i: Input, cursor: Option<int>, files: Files, cursor': Option<int>, files': Files) {
    exists written :: State(i.source, cursor', files') == AfterBrokenFlush(State(i.source, cursor, files), written, i.names)
  }

  /** A flush of a table whose cursor is not saved afterwards is one that broke off after its last file. */
  lemma UnsavedIsBroken(i: Input, cursor: Option<int>, saved: Option<int>, files: Files, files': Files)
    requires WentThrough(i, cursor, files, saved, files')
    ensures BrokeOff(i, cursor, files, cursor, files')
  {
    var rows := Newer(i.source, cursor);
    assert Partitions(rows) * Partitions(rows) == Partitions(rows);
    if rows == [] {
      assert Groups(rows, {}, i.names) == map[] && Partitions(rows) == {};
      assert files + map[] == files;
    }
    assert State(i.source, cursor, files') == AfterBrokenFlush(State(i.source, cursor, files), Partitions(rows), i.names);
  }

  /**
    `flush_events_to_catalog`: access events, audit log and remediation actions, and then one save
    of all three cursors.  If a write raises, no cursor is saved, and the tables after it are not reached.
   */
  method FlushEvents(tables: seq<Writer>, inputs: seq<Input>) returns (counts: Option<seq<nat>>)
    requires |tables| == |inputs| == 3 && NoRepeats(tables)
    requires forall i :: 0 <= i < 3 ==> Answers(inputs[i].fetched, inputs[i].source, tables[i].cursor)
    modifies tables
    ensures counts.Some? <==>
            forall i :: 0 <= i < 3 ==> Partitions(Newer(inputs[i].source, old(tables[i].cursor))) !! inputs[i].unwritable
    ensures counts.Some? ==>
              && |counts.value| == 3
              && forall i :: 0 <= i < 3 ==>
                   && counts.value[i] == |Newer(inputs[i].source, old(tables[i].cursor))|
                   && WentThrough(inputs[i], old(tables[i].cursor), old(tables[i].files), tables[i].cursor, tables[i].files)
    ensures counts.None? ==>
              forall i :: 0 <= i < 3 ==>
                BrokeOff(inputs[i], old(tables[i].cursor), old(tables[i].files), tables[i].cursor, tables[i].files)
  {
    hide Answers, Newer, Partitions, BrokeOff, WentThrough;
    var state: seq<Option<int>>, numbers: seq<nat> := [], [];
    for i := 0 to 3
      invariant |state| == |numbers| == i
      invariant forall k :: 0 <= k < 3 ==> tables[k].cursor == old(tables[k].cursor)
      invariant forall k :: i <= k < 3 ==> tables[k].files == old(tables[k].files)
      invariant forall k :: 0 <= k < i ==>
                  && numbers[k] == |Newer(inputs[k].source, old(tables[k].cursor))|
                  && Partitions(Newer(inputs[k].source, old(tables[k].cursor))) !! inputs[k].unwritable
                  && WentThrough(inputs[k], old(tables[k].cursor), old(tables[k].files), state[k], tables[k].files)
    {
      var t := inputs[i];
      ghost var cursor, files := tables[i].cursor, tables[i].files;
      var r := tables[i].WriteNewRows(t.fetched, t.names, t.unwritable, t.source);
      OneTable(t, cursor, files, tables[i].files, r);
      if r.Err? {
        forall k | 0 <= k < 3
          ensures BrokeOff(inputs[k], old(tables[k].cursor), old(tables[k].files), tables[k].cursor, tables[k].files)
        {
          if k < i {
            UnsavedIsBroken(inputs[k], old(tables[k].cursor), state[k], old(tables[k].files), tables[k].files);
          } else if k > i {
            Untouched(inputs[k], old(tables[k].cursor), old(tables[k].files));
          }
        }
        return None;
      }
      state, numbers := state + [r.value.1], numbers + [r.value.0];
    }
    tables[0].cursor := state[0];
    tables[1].cursor := state[1];
    tables[2].cursor := state[2];
    return Some(numbers);
  }

  /** A table that was not reached. */
  lemma Untouched(i: Input, cursor: Option<int>, files: Files)
    ensures BrokeOff(i, cursor, files, cursor, files)
  {
    var rows := Newer(i.source, cursor);
    assert Partitions(rows) * {} == {} && Groups(rows, {}, i.names) == map[];
    assert files + map[] == files;
    assert State(i.source, cursor, files) == AfterBrokenFlush(State(i.source, cursor, files), {}, i.names);
  }

  lemma OneTable(i: Input, cursor: Option<int>, files: Files, files': Files, r: Result<(nat, Option<int>), set<Partition>>)
    requires r.Ok? ==> State(i.source, r.value.1, files') == AfterFlush(State(i.source, cursor, files), i.names)
    requires r.Err? ==> State(i.source, cursor, files') == AfterBrokenFlush(State(i.source, cursor, files), r.error, i.names)
    ensures r.Ok? ==> WentThrough(i, cursor, files, r.value.1, files')
    ensures r.Err? ==> BrokeOff(i, cursor, files, cursor, files')
  {
    hide AfterFlush, AfterBrokenFlush;
  }

  class Writer {
    var files: Files
    var cursor: Option<int>

    constructor ()
      ensures files == map[] && cursor == None
    {
      files, cursor := map[], None;
    }

    /** Groups the rows by partition and writes a file for each group, until a write fails. */
    method WritePartitioned(rows: seq<Row>, names: Partition -> int, unwritable: set<Partition>) returns (written: set<Partition>)
      modifies this`files
      ensures written <= Partitions(rows) - unwritable
      ensures written == Partitions(rows) <==> Partitions(rows) !! unwritable
      ensures files == old(files) + Groups(rows, written, names)
    {
      var keys: seq<Partition>, groups: map<Partition, seq<nat>> := Group(rows);
      assert forall p :: p in groups ==> GroupOf(rows, p, groups[p]);
      written := {};
      var k := 0;
      while k < |keys|
        invariant 0 <= k <= |keys|
        invariant written == (set j | 0 <= j < k :: keys[j]) && written !! unwritable
        invariant files == old(files) + Groups(rows, written, names)
      {
        var p := keys[k];
        if p in unwritable {
          assert p in Partitions(rows) && p !in written;
          return;
        }
        var subset := Taken(rows, groups[p]);
        AddGroup(old(files), rows, written, p, names);
        files := files[File(p, names(p)) := multiset(subset)];
        written := written + {p};
        k := k + 1;
      }
    }

    /**
      One of the three sections of `flush_events_to_catalog`, with the answer of the database in stamp
      order: the groups are written, and the cursor to be saved at the end is returned.
     */
    method WriteNewRows(fetched: seq<Row>, names: Partition -> int, unwritable: set<Partition>, ghost source: seq<Row>)
      returns (r: Result<(nat, Option<int>), set<Partition>>)
      requires Answers(fetched, source, cursor)
      modifies this`files
      ensures r.Ok? <==> Partitions(Newer(source, cursor)) !! unwritable
      ensures r.Ok? ==>
                && r.value.0 == |Newer(source, cursor)|
                && State(source, r.value.1, files) == AfterFlush(State(source, cursor, old(files)), names)
      ensures r.Err? ==>
                State(source, cursor, files) == AfterBrokenFlush(State(source, cursor, old(files)), r.error, names)
    {
      ghost var rows := Newer(source, cursor);
      SameRows(fetched, rows, names);
      assert |fetched| == |multiset(fetched)| && |rows| == |multiset(rows)|;
      if fetched == [] {
        return Ok((0, cursor));
      }
      LastIsLatest(rows, fetched);
      hide Newer, Groups, Latest, Sorted;
      var written := WritePartitioned(fetched, names, unwritable);
      if exists p :: p in Partitions(fetched) && p !in written {  // a write has raised
        assert Partitions(rows) * written == written;
        return Err(written);
      }
      assert written == Partitions(rows);
      return Ok((|fetched|, Some(fetched[|fetched| - 1].stamp)));
    }

    method CompactPartition(dir: Partition, listed: seq<File>, name: int, faults: Faults) returns (failed: bool)
      requires NoRepeats(listed) && (set f | f in listed) == FilesOf(files, dir)
      modifies this`files
      ensures files == AfterCompaction(old(files), dir, |listed|, name, faults)
      ensures failed <==> dir in faults.unwritable && !(FilesOf(old(files), dir) <= faults.unreadable)
    {
      ghost var olds := FilesOf(files, dir);
      assert forall f :: f in listed <==> f in olds by {
        assert forall f :: f in listed <==> f in (set g | g in listed);
      }
      var merged, some := ReadAll(listed, faults.unreadable);
      SetOfSeq(listed);
      hide Content, Only;
      assert (set f | f in listed) - faults.unreadable == olds - faults.unreadable;
      assert forall f :: f in olds ==> f in faults.unreadable || f in olds - faults.unreadable;
      if !some {
        return false;
      }
      if dir in faults.unwritable {
        return true;
      }
      failed := false;
      files := files[File(dir, name) := merged];
      DeleteAll(listed, faults.undeletable);
      assert (set f | f in listed) - faults.undeletable == olds - faults.undeletable;
    }

    /** Reads what can be read. */
    method ReadAll(listed: seq<File>, unreadable: set<File>) returns (merged: multiset<Row>, some: bool)
      requires NoRepeats(listed) && forall f :: f in listed ==> f in files
      ensures merged == Content(Only(files, (set f | f in listed) - unreadable))
      ensures some <==> (set f | f in listed) - unreadable != {}
    {
      merged, some := multiset{}, false;
      ghost var read: set<File> := {};
      NoContentAt(files);
      hide Content, Only;
      for i := 0 to |listed|
        invariant read == (set f | f in listed[..i]) - unreadable
        invariant merged == Content(Only(files, read))
        invariant some <==> read != {}
      {
        var f := listed[i];
        assert listed[..i + 1] == listed[..i] + [f];
        if f !in unreadable {
          MoreContent(files, read, f);
          merged, some := merged + files[f], true;
          read := read + {f};
        }
      }
      assert listed[..|listed|] == listed;
    }

    method DeleteAll(listed: seq<File>, undeletable: set<File>)
      modifies this`files
      ensures files == old(files) - ((set f | f in listed) - undeletable)
    {
      for i := 0 to |listed|
        invariant files == old(files) - ((set f | f in listed[..i]) - undeletable)
      {
        assert listed[..i + 1] == listed[..i] + [listed[i]];
        if listed[i] !in undeletable {
          files := files - {listed[i]};
        }
      }
      assert listed[..|listed|] == listed;
    }

    /** The dirs are the partitions that have files, in the order of the listing. */
    method CompactTable(listing: seq<File>, threshold: int, names: Partition -> int, faults: Faults)
      returns (compacted: nat, ghost dirs: seq<Partition>)
      requires NoRepeats(listing) && (set f | f in listing) == files.Keys
      modifies this`files
      ensures NoRepeats(dirs) && (set d | d in dirs) == (set f | f in old(files) :: f.dir)
      ensures files == CompactDirs(old(files), dirs, threshold, names, faults)
      ensures compacted == CountCompacted(old(files), dirs, threshold, faults)
    {
      var keys, groups := GroupFiles(listing);
      FilesGroupedSets(listing, files, keys, groups);
      dirs := keys;
      compacted := 0;
      ghost var before := files;
      hide AfterCompaction, CountsAsCompacted, FilesGrouped, FilesOf;
      for k := 0 to |keys|
        invariant files == CompactDirs(before, dirs[..k], threshold, names, faults)
        invariant compacted == CountCompacted(before, dirs[..k], threshold, faults)
      {
        var dir := keys[k];
        assert dirs[..k + 1] == dirs[..k] + [dir] && dirs[..k + 1][..k] == dirs[..k];
        UntouchedDirs(before, dirs[..k], threshold, names, faults, dir);
        CountsLikewise(files, before, dir, threshold, faults);
        var counts := CompactIfMany(dir, groups[dir], threshold, names(dir), faults);
        if counts {
          compacted := compacted + 1;
        }
      }
      assert dirs[..|dirs|] == dirs;
    }

    method CompactIfMany(dir: Partition, group: seq<File>, threshold: int, name: int, faults: Faults) returns (counts: bool)
      requires NoRepeats(group) && (set f | f in group) == FilesOf(files, dir)
      modifies this`files
      ensures files == AfterCompaction(old(files), dir, threshold, name, faults)
      ensures counts == CountsAsCompacted(old(files), dir, threshold, faults)
    {
      SetOfSeq(group);
      hide Content, Only, Merged;
      if |group| < threshold {
        return false;
      }
      var failed := CompactPartition(dir, group, name, faults);
      return !failed;
    }
  }

  lemma CountsLikewise(a: Files, b: Files, dir: Partition, threshold: int, faults: Faults)
    requires FilesOf(a, dir) == FilesOf(b, dir)
    ensures CountsAsCompacted(a, dir, threshold, faults) == CountsAsCompacted(b, dir, threshold, faults)
  {
  }

  lemma {:induction false} SetOfSeq<T(!new)>(s: seq<T>)
    requires NoRepeats(s)
    ensures |set x | x in s| == |s|
  {
    if s != [] {
      var init, last := s[..|s| - 1], s[|s| - 1];
      SetOfSeq(init);
      assert (set x | x in s) == (set x | x in init) + {last} by {
        assert s == init + [last];
      }
    }
  }

  lemma AddGroup(files: Files, rows: seq<Row>, written: set<Partition>, p: Partition, names: Partition -> int)
    requires p !in written
    ensures (files + Groups(rows, written, names))[File(p, names(p)) := multiset(In(rows, {p}))]
         == files + Groups(rows, written + {p}, names)
  {
    hide In;
    var groups, more, f := Groups(rows, written, names), Groups(rows, written + {p}, names), File(p, names(p));
    assert more.Keys == groups.Keys + {f};
    assert more == groups[f := multiset(In(rows, {p}))];
    assert files + more == (files + groups)[f := more[f]];
  }

  ghost predicate GroupOf(rows: seq<Row>, p: Partition, indices: seq<nat>) {
    && (forall k :: 0 <= k < |indices| ==> indices[k] < |rows|)
    && Taken(rows, indices) == In(rows, {p})
  }

  ghost predicate Grouped(rows: seq<Row>, keys: seq<Partition>, groups: map<Partition, seq<nat>>) {
    && NoRepeats(keys) && (forall p :: p in keys <==> p in groups)
    && (forall p :: p in groups <==> p in Partitions(rows))
    && (forall p :: p in groups ==> GroupOf(rows, p, groups[p]))
  }

  lemma TakenMore(rows: seq<Row>, r: Row, indices: seq<nat>)
    requires forall k :: 0 <= k < |indices| ==> indices[k] < |rows|
    ensures Taken(rows + [r], indices) == Taken(rows, indices)
    ensures Taken(rows + [r], indices + [|rows|]) == Taken(rows, indices) + [r]
  {
  }

  lemma OneMoreInGroup(rows: seq<Row>, r: Row, p: Partition, indices: seq<nat>)
    requires GroupOf(rows, p, indices)
    ensures GroupOf(rows + [r], p, if p == r.partition then indices + [|rows|] else indices)
  {
    TakenMore(rows, r, indices);
    hide In, Taken;
    assert In(rows, {p}) + [] == In(rows, {p});
  }

  lemma OneMoreGrouped(rows: seq<Row>, r: Row, keys: seq<Partition>, groups: map<Partition, seq<nat>>)
    requires Grouped(rows, keys, groups)
    ensures var p := r.partition;
            Grouped(rows + [r], if p in groups then keys else keys + [p],
              groups[p := (if p in groups then groups[p] else []) + [|rows|]])
  {
    hide GroupOf, Partitions, In;
    var key := r.partition;
    var before := if key in groups then groups[key] else [];
    NoneInGroup(rows, key);
    OneMoreInGroup(rows, r, key, before);
    OneMorePartition(rows, r);
    forall p | p in groups && p != key
      ensures GroupOf(rows + [r], p, groups[p])
    {
      OneMoreInGroup(rows, r, p, groups[p]);
    }
  }

  lemma NoneInGroup(rows: seq<Row>, p: Partition)
    ensures p !in Partitions(rows) ==> GroupOf(rows, p, [])
  {
    if p !in Partitions(rows) {
      KeepNone(rows, IsIn({p}));
    }
  }

  lemma OneMorePartition(rows: seq<Row>, r: Row)
    ensures forall p :: p in Partitions(rows + [r]) <==> p in Partitions(rows) || p == r.partition
  {
    assert Partitions(rows + [r]) == Partitions(rows) + {r.partition};
  }

  lemma Prefixes<T>(s: seq<T>, i: nat)
    requires i < |s|
    ensures s[..i + 1] == s[..i] + [s[i]]
  {
  }

  lemma NothingGrouped(rows: seq<Row>)
    ensures Grouped(rows[..0], [], map[])
  {
  }

  /** The positions of each partition's rows, in order; the keys are in order of appearance. */
  method Group(rows: seq<Row>) returns (keys: seq<Partition>, groups: map<Partition, seq<nat>>)
    ensures Grouped(rows, keys, groups)
  {
    keys, groups := [], map[];
    NothingGrouped(rows);
    hide *;
    for i := 0 to |rows|
      invariant Grouped(rows[..i], keys, groups)
    {
      var key := rows[i].partition;
      OneMoreGrouped(rows[..i], rows[i], keys, groups);
      Prefixes(rows, i);
      keys := if key in groups then keys else keys + [key];
      groups := groups[key := (if key in groups then groups[key] else []) + [i]];
    }
    assert rows[..|rows|] == rows;
  }

  ghost predicate FilesGrouped(listing: seq<File>, keys: seq<Partition>, groups: map<Partition, seq<File>>) {
    && NoRepeats(keys) && (forall d :: d in keys <==> d in groups)
    && (forall d :: d in groups <==> exists f :: f in listing && f.dir == d)
    && (forall d :: d in groups ==> NoRepeats(groups[d]))
    && (forall d, f :: d in groups ==> (f in groups[d] <==> f in listing && f.dir == d))
  }

  lemma OneMoreFile(listing: seq<File>, f: File, keys: seq<Partition>, groups: map<Partition, seq<File>>)
    requires FilesGrouped(listing, keys, groups) && f !in listing
    ensures FilesGrouped(listing + [f], if f.dir in groups then keys else keys + [f.dir],
              groups[f.dir := (if f.dir in groups then groups[f.dir] else []) + [f]])
  {
    assert forall g :: g in listing + [f] <==> g in listing || g == f;
    if f.dir in groups {
      assert f !in groups[f.dir];
    }
    assert forall g :: g in listing ==> g.dir in groups;
  }

  lemma FilesGroupedSets(listing: seq<File>, files: Files, keys: seq<Partition>, groups: map<Partition, seq<File>>)
    requires FilesGrouped(listing, keys, groups) && (set f | f in listing) == files.Keys
    ensures NoRepeats(keys) && (set d | d in keys) == (set f | f in files :: f.dir)
    ensures forall d :: d in keys ==> d in groups && NoRepeats(groups[d]) && (set f | f in groups[d]) == FilesOf(files, d)
  {
    assert forall f :: f in listing <==> f in files.Keys;
  }

  lemma NoFilesGrouped(listing: seq<File>)
    ensures FilesGrouped(listing[..0], [], map[])
  {
  }

  lemma NotBefore<T(!new)>(s: seq<T>, i: nat)
    requires NoRepeats(s) && i < |s|
    ensures s[i] !in s[..i]
  {
  }

  /** The files of each directory, in the order of the listing. */
  method GroupFiles(listing: seq<File>) returns (keys: seq<Partition>, groups: map<Partition, seq<File>>)
    requires NoRepeats(listing)
    ensures FilesGrouped(listing, keys, groups)
  {
    keys, groups := [], map[];
    NoFilesGrouped(listing);
    hide *;
    for i := 0 to |listing|
      invariant FilesGrouped(listing[..i], keys, groups)
    {
      var f := listing[i];
      NotBefore(listing, i);
      OneMoreFile(listing[..i], f, keys, groups);
      Prefixes(listing, i);
      keys := if f.dir in groups then keys else keys + [f.dir];
      groups := groups[f.dir := (if f.dir in groups then groups[f.dir] else []) + [f]];
    }
    assert listing[..|listing|] == listing;
  }
}
