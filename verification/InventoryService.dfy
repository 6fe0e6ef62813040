/**
  The service itself (`jobs/inventory.py`, class `InventoryService`): record objects, an ordered
  dictionary that is reordered and evicted in place, and a session that writes out new records
  before it queries.
 */
module InventoryService {
  import opened Results
  import opened Inventory

  class FileInventory {
    var hash: string
    var size: int
    var modified: Option<int>
    var job: int
    var needsRescan: bool
    var scanCount: Option<nat>
    var changedCount: Option<nat>

    constructor (scan: Scan)
      ensures Value() == NewRow(scan)
    {
      hash, size, modified, job, needsRescan := scan.hash, scan.size, scan.modified, scan.job, false;
      scanCount, changedCount := None, None;
    }

    function Value(): Row
      reads this
    {
      Row(hash, size, modified, job, needsRescan, scanCount, changedCount)
    }

    /** The update of an existing record, up to the first counter that has no value to add to. */
    method Rescan(scan: Scan) returns (ok: bool)
      modifies this
      ensures Value() == Rescanned(old(Value()), scan)
      ensures ok == (old(scanCount).Some? && (old(hash) == scan.hash || old(changedCount).Some?))
    {
      if hash != scan.hash {
        if changedCount.None? {
          return false;
        }
        changedCount := Some(changedCount.value + 1);
      }
      hash, size, modified, job := scan.hash, scan.size, scan.modified, scan.job;
      if scanCount.None? {
        return false;
      }
      scanCount := Some(scanCount.value + 1);
      needsRescan := false;
      return true;
    }
  }

  class Service {
    const limit: nat
    /** The records of the target, written out or new in the session. */
    var table: map<string, FileInventory>
    /** The ordered dictionary: its keys in order, and its entries. */
    var order: seq<string>
    var entries: map<string, FileInventory>

    constructor (limit: nat)
      ensures this.limit == limit && Valid() && View() == State(map[], [])
    {
      this.limit := limit;
      table, order, entries := map[], [], map[];
    }

    ghost predicate Valid()
      reads this
    {
      && (forall p, q :: p in table && q in table && p != q ==> table[p] != table[q])
      && Distinct(order)
      && (forall p :: p in entries <==> p in order)
      && (forall p :: p in entries ==> p in table && entries[p] == table[p])
    }

    ghost function Rows(): (rows: map<string, Row>)
      reads this, table.Values
    {
      map p | p in table :: table[p].Value()
    }

    ghost function View(): State
      reads this, table.Values
    {
      State(Rows(), order)
    }

    method MoveToEnd(path: string)
      requires Valid() && path in entries
      modifies this`order
      ensures Valid() && order == Used(old(order), path)
    {
      UsedMembers(order, path);
      order := Without(order, path) + [path];
    }

    method CacheFile(path: string, inv: FileInventory)
      requires Valid() && path in table && table[path] == inv
      modifies this`order, this`entries
      ensures Valid() && order == LastOf(limit, Used(old(order), path))
    {
      Append(path, inv);
      ghost var used := order;
      hide Used, Distinct, Service.Valid;
      while |order| > limit
        invariant |order| <= |used| && order == used[|used| - |order|..]
        invariant |order| >= limit || order == used
        invariant Valid()
      {
        PopOldest();
      }
    }

    method Append(path: string, inv: FileInventory)
      requires Valid() && path in table && table[path] == inv
      modifies this`order, this`entries
      ensures Valid() && order == Used(old(order), path)
    {
      UsedMembers(order, path);
      hide Without, Distinct;
      entries := entries[path := inv];
      order := Without(order, path) + [path];
    }

    method PopOldest()
      requires Valid() && order != []
      modifies this`order, this`entries
      ensures Valid() && order == old(order)[1..]
    {
      var oldest := order[0];
      assert order == [oldest] + order[1..];
      DistinctParts([oldest], order[1..]);
      hide Distinct;
      entries := entries - {oldest};
      order := order[1..];
    }

    /** Before a query the session writes out its new records, which then have their defaults. */
    method Flush()
      requires Valid()
      modifies table.Values
      ensures Valid() && View() == old(View()).(rows := Written(old(View()).rows))
    {
      forall inv | inv in table.Values {
        inv.scanCount := Some(if inv.scanCount.Some? then inv.scanCount.value else 1);
      }
      forall inv | inv in table.Values {
        inv.changedCount := Some(if inv.changedCount.Some? then inv.changedCount.value else 0);
      }
    }

    /** What is found is the record in the table, whether or not it is cached. */
    method GetFileInv(path: string) returns (found: Option<FileInventory>)
      requires Valid()
      modifies this`order, this`entries, table.Values
      ensures Valid() && View() == AfterLookup(limit, old(View()), path)
      ensures found == if path in table then Some(table[path]) else None
    {
      if path in entries {
        MoveToEnd(path);
        assert Rows() == old(Rows());
        return Some(entries[path]);
      }
      Flush();
      found := if path in table then Some(table[path]) else None;
      if found.Some? {
        label before:
        CacheFile(path, found.value);
        assert Rows() == old@before(Rows());
      }
    }

    method ShouldScanFile(path: string, size: int, modified: Option<int>, hash: Option<string>, force: bool)
      returns (reason: Reason)
      requires Valid()
      modifies this`order, this`entries, table.Values
      ensures Valid() && View() == if force then old(View()) else AfterLookup(limit, old(View()), path)
      ensures reason == WhyScan(if path in Rows() then Some(Rows()[path]) else None, size, modified, hash, force)
    {
      if force {
        return FullScan;
      }
      var found := GetFileInv(path);
      if found.None? {
        return NewFile;
      }
      var inv := found.value;
      if inv.needsRescan {
        return FlaggedRescan;
      }
      if hash.Some? && hash.value != "" && inv.hash != "" {
        if hash.value != inv.hash {
          return ContentChanged;
        }
      }
      if modified.Some? && inv.modified.Some? {
        if modified.value > inv.modified.value {
          return ModifiedTime;
        }
      }
      if size != inv.size {
        return SizeChanged;
      }
      return Same;
    }

    /** The update's branch for a file that has a record. */
    method UpdateRecord(inv: FileInventory, scan: Scan) returns (ok: bool)
      requires Valid() && scan.path in table && table[scan.path] == inv
      modifies inv
      ensures Valid() && View() == old(View()).(rows := old(Rows())[scan.path := Rescanned(old(Rows())[scan.path], scan)])
      ensures ok == (old(inv.scanCount).Some? && (old(inv.hash) == scan.hash || old(inv.changedCount).Some?))
    {
      ok := inv.Rescan(scan);
      hide Rescanned;
      assert Rows() == old(Rows())[scan.path := Rescanned(old(Rows())[scan.path], scan)];
    }

    /** The update's branch for a file without a record. */
    method AddRecord(scan: Scan)
      requires Valid() && scan.path !in table
      modifies this
      ensures Valid() && table.Keys == old(table.Keys) + {scan.path}
      ensures forall p :: p in old(table) ==> table[p] == old(table[p])
      ensures fresh(table[scan.path])
      ensures View() == State(old(Rows())[scan.path := NewRow(scan)], LastOf(limit, Used(old(order), scan.path)))
    {
      var inv := new FileInventory(scan);
      table := table[scan.path := inv];
      hide Used, LastOf;
      CacheFile(scan.path, inv);
      assert Rows() == old(Rows())[scan.path := NewRow(scan)];
    }

    method UpdateFileInventory(scan: Scan) returns (ok: bool)
      requires Valid()
      modifies this, table.Values
      ensures Valid() && View() == AfterScan(limit, old(View()), scan)
      ensures ok == !Refused(limit, old(View()), scan)
    {
      hide Written, LastOf, Used, Distinct, Rescanned, Service.Valid, AfterLookup;
      var found := GetFileInv(scan.path);
      if found.Some? {
        ok := UpdateRecord(found.value, scan);
      } else {
        AddRecord(scan);
        ok := true;
      }
    }

    method MarkMissingFiles(job: int)
      requires Valid()
      modifies table.Values
      ensures Valid() && View() == AfterMarking(old(View()), job)
    {
      Flush();
      label flushed:
      forall inv | inv in table.Values && inv.job != job && !inv.needsRescan {
        inv.needsRescan := true;
      }
    }
  }
}
