/**
 Applying the staged lookup requests of a change (lib/client-config-db.ts): new asset
 classes, sub asset classes under a parent, and benchmarks. Surrogate ids are replaced by
 the unique codes they stand for.
 */
module LookupApply {
  import opened Text
  import opened Wrappers

  datatype SubAssetClass = SubAssetClass(name: string, sortOrder: Option<int>)

  datatype Lookups = Lookups(
    assetClasses: map<string, string>,
    subAssetClasses: map<(string, string), SubAssetClass>,
    benchmarks: map<string, Option<string>>)

  /** A staged request; a column that is NULL is None. */
  datatype Row =
    | AssetClassRow(id: nat, code: Option<string>, name: Option<string>)
    | SubAssetClassRow(id: nat, parent: Option<string>, code: Option<string>, name: Option<string>, sortOrder: Option<int>)
    | BenchmarkRow(id: nat, code: Option<string>, name: Option<string>)
    | UnknownRow(id: nat)

  datatype Reported = Applied | Skipped | Failed

  datatype Stored = Pending | StoredApplied | StoredFailed

  /** `code = value` in SQL: NULL equals nothing. */
  predicate Known<K, V>(m: map<K, V>, key: Option<K>) {
    key.Some? && key.value in m
  }

  predicate AssetClassAllowed(l: Lookups, row: Row)
    requires row.AssetClassRow?
  {
    && row.code.Some? && |row.code.value| == 2 && AllLetters(row.code.value)
    && row.name.Some? && |row.name.value| <= 30
    && row.code.value !in l.assetClasses
    && forall other <- l.assetClasses :: l.assetClasses[other] != row.name.value
  }

  function SubKey(row: Row): Option<(string, string)>
    requires row.SubAssetClassRow?
  {
    if row.parent.Some? && row.code.Some? then Some((row.parent.value, row.code.value)) else None
  }

  predicate SubAssetClassAllowed(l: Lookups, row: Row)
    requires row.SubAssetClassRow?
  {
    && Known(l.assetClasses, row.parent)
    && row.code.Some? && |row.code.value| == 3 && AllLetters(row.code.value)
    && row.name.Some? && |row.name.value| <= 100
    && SubKey(row).value !in l.subAssetClasses
    && forall other <- l.subAssetClasses | other.0 == row.parent.value :: l.subAssetClasses[other].name != row.name.value
  }

  predicate BenchmarkAllowed(l: Lookups, row: Row)
    requires row.BenchmarkRow?
  {
    && row.code.Some? && |row.code.value| <= 60 && row.code.value !in l.benchmarks
    && (row.name.Some? ==> |row.name.value| <= 100)
  }

  /** One staged row; None when its INSERT fails. */
  function ApplyRow(l: Lookups, row: Row): Option<(Lookups, Reported)> {
    match row
    case AssetClassRow(_, code, name) =>
      if Known(l.assetClasses, code) then Some((l, Skipped))
      else if AssetClassAllowed(l, row) then
        Some((l.(assetClasses := l.assetClasses[code.value := name.value]), Applied))
      else None
    case SubAssetClassRow(_, parent, code, name, sortOrder) =>
      if !Known(l.assetClasses, parent) then Some((l, Failed))
      else if Known(l.subAssetClasses, SubKey(row)) then Some((l, Skipped))
      else if SubAssetClassAllowed(l, row) then
        Some((l.(subAssetClasses := l.subAssetClasses[SubKey(row).value := SubAssetClass(name.value, sortOrder)]), Applied))
      else None
    case BenchmarkRow(_, code, name) =>
      if Known(l.benchmarks, code) then Some((l, Skipped))
      else if BenchmarkAllowed(l, row) then Some((l.(benchmarks := l.benchmarks[code.value := name]), Applied))
      else None
    case UnknownRow(_) => Some((l, Failed))
  }

  function ApplyRows(l: Lookups, rows: seq<Row>): (r: Option<(Lookups, seq<Reported>)>)
    ensures r.Some? ==> |r.value.1| == |rows|
  {
    if rows == [] then Some((l, []))
    else
      match ApplyRows(l, rows[..|rows| - 1])
      case None => None
      case Some((next, reports)) =>
        match ApplyRow(next, rows[|rows| - 1])
        case None => None
        case Some((last, report)) => Some((last, reports + [report]))
  }

  /** What a committed run stores: an existing value is reported as skipped but stored as failed. */
  function Recorded(stored: map<nat, Stored>, rows: seq<Row>, reports: seq<Reported>): map<nat, Stored>
    requires |rows| == |reports|
  {
    if rows == [] then stored
    else
      var n := |rows| - 1;
      var before := Recorded(stored, rows[..n], reports[..n]);
      if rows[n].UnknownRow? then before
      else before[rows[n].id := if reports[n] == Applied then StoredApplied else StoredFailed]
  }

  /** The live tables after one call. */
  function AfterRun(l: Lookups, rows: seq<Row>): Lookups {
    match ApplyRows(l, rows) case Some((last, _)) => last case None => l
  }

  // ---- What one row is for ----

  /** Exactly n upper-case letters. */
  predicate IsCode(code: Option<string>, n: nat) {
    code.Some? && |code.value| == n && forall c <- code.value :: 'A' <= c <= 'Z'
  }

  /** What the row is reported as: a value that is there is skipped, a missing parent or unknown dimension fails. */
  predicate Reports(l: Lookups, row: Row, report: Reported) {
    match row
    case AssetClassRow(_, code, _) => report == if code.Some? && code.value in l.assetClasses then Skipped else Applied
    case SubAssetClassRow(_, parent, code, _, _) =>
      report == if parent.None? || parent.value !in l.assetClasses then Failed
                else if code.Some? && (parent.value, code.value) in l.subAssetClasses then Skipped
                else Applied
    case BenchmarkRow(_, code, _) => report == if code.Some? && code.value in l.benchmarks then Skipped else Applied
    case UnknownRow(_) => report == Failed
  }

  /** The new value may be inserted: its columns meet the checks, and its name is not taken. */
  ghost predicate Fits(l: Lookups, row: Row) {
    match row
    case AssetClassRow(_, code, name) =>
      && IsCode(code, 2) && name.Some? && |name.value| <= 30
      && forall c <- l.assetClasses :: l.assetClasses[c] != name.value
    case SubAssetClassRow(_, parent, code, name, _) =>
      && IsCode(code, 3) && name.Some? && |name.value| <= 100
      && forall c <- l.subAssetClasses | parent == Some(c.0) :: l.subAssetClasses[c].name != name.value
    case BenchmarkRow(_, code, name) => code.Some? && |code.value| <= 60 && (name.Some? ==> |name.value| <= 100)
    case UnknownRow(_) => true
  }

  /** The table got the row's name, and for a sub asset class its sort order, under its code; nothing else changed. */
  ghost predicate Inserts(l: Lookups, row: Row, next: Lookups) {
    match row
    case AssetClassRow(_, code, name) =>
      && code.Some? && name.Some? && code.value !in l.assetClasses && Put(l.assetClasses, next.assetClasses, code.value, name.value)
      && next == l.(assetClasses := next.assetClasses)
    case SubAssetClassRow(_, parent, code, name, sortOrder) =>
      && parent.Some? && code.Some? && name.Some? && (parent.value, code.value) !in l.subAssetClasses
      && Put(l.subAssetClasses, next.subAssetClasses, (parent.value, code.value), SubAssetClass(name.value, sortOrder))
      && next == l.(subAssetClasses := next.subAssetClasses)
    case BenchmarkRow(_, code, name) =>
      && code.Some? && code.value !in l.benchmarks && Put(l.benchmarks, next.benchmarks, code.value, name)
      && next == l.(benchmarks := next.benchmarks)
    case UnknownRow(_) => false
  }

  /** A row throws exactly when it is up for insertion and does not fit; otherwise it is reported and inserted as said. */
  ghost predicate Settles(l: Lookups, row: Row, o: Option<(Lookups, Reported)>) {
    && (o.None? <==> Reports(l, row, Applied) && !Fits(l, row))
    && (o.Some? ==> Reports(l, row, o.value.1) && if o.value.1 == Applied then Inserts(l, row, o.value.0) else o.value.0 == l)
  }

  lemma RowSettles(l: Lookups, row: Row)
    ensures Settles(l, row, ApplyRow(l, row))
  {
    hide Put;
    match row
    case AssetClassRow(_, code, name) =>
      if code.Some? && name.Some? && code.value !in l.assetClasses { NewKeyPuts(l.assetClasses, code.value, name.value); }
    case SubAssetClassRow(_, parent, code, name, sortOrder) =>
      if parent.Some? && code.Some? && name.Some? && (parent.value, code.value) !in l.subAssetClasses {
        NewKeyPuts(l.subAssetClasses, (parent.value, code.value), SubAssetClass(name.value, sortOrder));
      }
    case BenchmarkRow(_, code, name) =>
      if code.Some? && code.value !in l.benchmarks { NewKeyPuts(l.benchmarks, code.value, name); }
    case UnknownRow(_) =>
  }

  lemma NewKeyPuts<K(!new), V(!new)>(m: map<K, V>, key: K, value: V)
    requires key !in m
    ensures Put(m, m[key := value], key, value)
  {
  }

  /** The run stands before its k-th row; the row settles there, and a run aborts only where a row throws. */
  lemma {:induction false} RunSettles(l: Lookups, rows: seq<Row>, k: nat)
    requires k < |rows| && ApplyRows(l, rows).Some?
    ensures ApplyRows(l, rows[..k]).Some? && ApplyRows(l, rows[..k + 1]).Some?
    ensures Settles(ApplyRows(l, rows[..k]).value.0, rows[k],
                    Some((ApplyRows(l, rows[..k + 1]).value.0, ApplyRows(l, rows).value.1[k])))
  {
    hide ApplyRow, Settles;
    if k == |rows| - 1 {
      assert rows[..k + 1] == rows;
      RowSettles(ApplyRows(l, rows[..k]).value.0, rows[k]);
    } else {
      var n := |rows| - 1;
      RunSettles(l, rows[..n], k);
      assert rows[..n][..k] == rows[..k] && rows[..n][..k + 1] == rows[..k + 1];
    }
  }

  /** The stored status of a staged row is that of the last row with its id; an unknown dimension stores nothing. */
  lemma {:induction false} StatusesAreRecorded(stored: map<nat, Stored>, rows: seq<Row>, reports: seq<Reported>, id: nat, k: int)
    requires |rows| == |reports| && -1 <= k < |rows| && (k >= 0 ==> rows[k].id == id && !rows[k].UnknownRow?)
    requires forall j | k < j < |rows| :: rows[j].id != id || rows[j].UnknownRow?
    ensures var now := Recorded(stored, rows, reports);
            if k >= 0 then id in now && now[id] == if reports[k] == Applied then StoredApplied else StoredFailed
            else (id in now <==> id in stored) && (id in now ==> now[id] == stored[id])
  {
    if rows != [] {
      var n := |rows| - 1;
      if k < n { StatusesAreRecorded(stored, rows[..n], reports[..n], id, k); }
    }
  }

  // ---- The loop ----

  /** The body of the loop for one row: SELECTs, then the INSERT, which may throw. */
  method TryRow(l: Lookups, row: Row) returns (threw: bool, next: Lookups, report: Reported)
    ensures threw == ApplyRow(l, row).None?
    ensures !threw ==> Some((next, report)) == ApplyRow(l, row)
    ensures Settles(l, row, if threw then None else Some((next, report)))
  {
    RowSettles(l, row);
    hide Settles;
    threw, next, report := false, l, Failed;
    match row {
      case AssetClassRow(_, code, name) =>
        if Known(l.assetClasses, code) {
          report := Skipped;
          return;
        }
        threw := !AssetClassAllowed(l, row);
        if !threw { next, report := l.(assetClasses := l.assetClasses[code.value := name.value]), Applied; }
      case SubAssetClassRow(_, parent, code, name, sortOrder) =>
        if !Known(l.assetClasses, parent) { return; }
        if Known(l.subAssetClasses, SubKey(row)) {
          report := Skipped;
          return;
        }
        threw := !SubAssetClassAllowed(l, row);
        if !threw {
          var written := SubAssetClass(name.value, sortOrder);
          next, report := l.(subAssetClasses := l.subAssetClasses[SubKey(row).value := written]), Applied;
        }
      case BenchmarkRow(_, code, name) =>
        if Known(l.benchmarks, code) {
          report := Skipped;
          return;
        }
        threw := !BenchmarkAllowed(l, row);
        if !threw { next, report := l.(benchmarks := l.benchmarks[code.value := name]), Applied; }
      case UnknownRow(_) =>
    }
  }

  class LookupStore {
    var lookups: Lookups
    var stored: map<nat, Stored>

    constructor (lookups: Lookups, stored: map<nat, Stored>)
      ensures this.lookups == lookups && this.stored == stored
    {
      this.lookups, this.stored := lookups, stored;
    }

    /**
     applyChangeLookupRequests. A failing INSERT reaches the catch block, whose own UPDATE
     then fails on the aborted transaction and leaves the call: nothing is committed.
     */
    method ApplyLookupRequests(rows: seq<Row>) returns (threw: bool, success: bool, applied: seq<Reported>)
      modifies this
      ensures threw == ApplyRows(old(lookups), rows).None?
      ensures threw ==> lookups == old(lookups) && stored == old(stored)
      ensures !threw ==>
                && (lookups, applied) == ApplyRows(old(lookups), rows).value
                && stored == Recorded(old(stored), rows, applied)
                && success == (Failed !in applied)
    {
      hide ApplyRow, Settles;
      var tables, statuses := lookups, stored;
      applied, success := [], true;
      for k := 0 to |rows|
        invariant lookups == old(lookups) && stored == old(stored)
        invariant ApplyRows(lookups, rows[..k]) == Some((tables, applied))
        invariant statuses == Recorded(stored, rows[..k], applied)
        invariant success == (Failed !in applied)
      {
        assert rows[..k + 1][..k] == rows[..k];
        var report;
        threw, tables, report := TryRow(tables, rows[k]);
        if threw {
          PrefixDecides(lookups, rows, k + 1);
          return true, false, applied;
        }
        assert (applied + [report])[..k] == applied;
        applied := applied + [report];
        success := success && report != Failed;
        if !rows[k].UnknownRow? {
          statuses := statuses[rows[k].id := if report == Applied then StoredApplied else StoredFailed];
        }
      }
      assert rows[..|rows|] == rows;
      lookups, stored, threw := tables, statuses, false;
    }
  }

  lemma {:induction false} PrefixDecides(l: Lookups, rows: seq<Row>, k: nat)
    requires k <= |rows| && ApplyRows(l, rows[..k]).None?
    ensures ApplyRows(l, rows).None?
    decreases |rows| - k
  {
    if k == |rows| {
      assert rows[..k] == rows;
    } else {
      assert rows[..k + 1][..k] == rows[..k];
      PrefixDecides(l, rows, k + 1);
    }
  }

  // ---- Existing values ----

  ghost predicate Extends(before: Lookups, after: Lookups) {
    && (forall c <- before.assetClasses :: c in after.assetClasses && after.assetClasses[c] == before.assetClasses[c])
    && (forall c <- before.subAssetClasses :: c in after.subAssetClasses && after.subAssetClasses[c] == before.subAssetClasses[c])
    && (forall c <- before.benchmarks :: c in after.benchmarks && after.benchmarks[c] == before.benchmarks[c])
  }

  lemma RowExtends(l: Lookups, row: Row)
    requires ApplyRow(l, row).Some?
    ensures Extends(l, ApplyRow(l, row).value.0)
  {
  }

  /** No run removes or overwrites a value that is there. */
  lemma {:induction false} RunExtends(l: Lookups, rows: seq<Row>)
    ensures Extends(l, AfterRun(l, rows))
    decreases |rows|
  {
    hide ApplyRow;
    if rows != [] {
      var n := |rows| - 1;
      RunExtends(l, rows[..n]);
      if ApplyRows(l, rows).Some? {
        RowExtends(AfterRun(l, rows[..n]), rows[n]);
      }
    }
  }

  // ---- Convergence ----

  /** The row no longer writes: in this state it is skipped, fails on its parent, or breaks the run. */
  ghost predicate Idle(l: Lookups, row: Row) {
    ApplyRow(l, row).Some? ==> ApplyRow(l, row).value.0 == l
  }

  lemma {:induction false} IdleRowsRunIdle(l: Lookups, rows: seq<Row>)
    requires forall r <- rows :: Idle(l, r)
    ensures AfterRun(l, rows) == l
    ensures ApplyRows(l, rows).Some? ==> ApplyRows(l, rows).value.0 == l
    decreases |rows|
  {
    if rows != [] {
      assert rows[|rows| - 1] in rows;
      IdleRowsRunIdle(l, rows[..|rows| - 1]);
    }
  }

  /** A row whose parent, if it needs one, is not missing now only to appear later. */
  predicate ParentDecided(now: Lookups, last: Lookups, row: Row) {
    row.SubAssetClassRow? && !Known(now.assetClasses, row.parent) ==> !Known(last.assetClasses, row.parent)
  }

  lemma SettledRowIsIdle(now: Lookups, row: Row, last: Lookups)
    requires ApplyRow(now, row).Some? && Extends(ApplyRow(now, row).value.0, last)
    requires ParentDecided(now, last, row)
    ensures Idle(last, row)
  {
  }

  /** Where a committed run stands at its k-th row, with the rest of the run still ahead. */
  lemma {:induction false} RunAt(l: Lookups, rows: seq<Row>, k: nat) returns (now: Lookups)
    requires k < |rows| && ApplyRows(l, rows).Some?
    ensures ApplyRows(l, rows[..k]).Some? && now == ApplyRows(l, rows[..k]).value.0
    ensures ApplyRow(now, rows[k]).Some? && Extends(ApplyRow(now, rows[k]).value.0, ApplyRows(l, rows).value.0)
    decreases |rows|
  {
    var n := |rows| - 1;
    if k == n {
      now := ApplyRows(l, rows[..n]).value.0;
    } else {
      assert rows[..n][..k] == rows[..k];
      now := RunAt(l, rows[..n], k);
      RowExtends(ApplyRows(l, rows[..n]).value.0, rows[n]);
    }
  }

  /** After a committed run every requested asset class is there, so a later run adds none. */
  lemma SecondRunAddsNoAssetClass(l: Lookups, rows: seq<Row>, part: seq<Row>)
    requires ApplyRows(l, rows).Some? && (forall r <- part :: r in rows)
    ensures var last := ApplyRows(l, rows).value.0;
            ApplyRows(last, part).Some? ==> ApplyRows(last, part).value.0.assetClasses == last.assetClasses
    decreases |part|
  {
    var last := ApplyRows(l, rows).value.0;
    if part != [] {
      var n := |part| - 1;
      SecondRunAddsNoAssetClass(l, rows, part[..n]);
      if part[n].AssetClassRow? {
        assert part[n] in rows;
        var k :| 0 <= k < |rows| && rows[k] == part[n];
        var now := RunAt(l, rows, k);
        assert Known(last.assetClasses, part[n].code);
      }
    }
  }

  /**
   Whatever the batch and the tables, a third run changes nothing that the first two did not:
   a sub asset class whose parent came later in the batch needs the second run, and no row
   needs a third.
   */
  lemma LookupApplyConverges(l: Lookups, rows: seq<Row>)
    ensures var twice := AfterRun(AfterRun(l, rows), rows);
            AfterRun(twice, rows) == twice
  {
    var once := AfterRun(l, rows);
    var twice := AfterRun(once, rows);
    if ApplyRows(l, rows).Some? && ApplyRows(once, rows).Some? {
      forall r | r in rows ensures Idle(twice, r) {
        var k :| 0 <= k < |rows| && rows[k] == r;
        var now := RunAt(once, rows, k);
        SecondRunAddsNoAssetClass(l, rows, rows);
        forall x | x in rows[..k] ensures x in rows {}
        SecondRunAddsNoAssetClass(l, rows, rows[..k]);
        SettledRowIsIdle(now, r, twice);
      }
      IdleRowsRunIdle(twice, rows);
    }
  }

  /** Each sub asset class's parent is there before the run or is requested earlier in the batch. */
  ghost predicate ParentsFirst(l: Lookups, rows: seq<Row>) {
    forall k | 0 <= k < |rows| && rows[k].SubAssetClassRow? ::
      || Known(l.assetClasses, rows[k].parent)
      || exists j | 0 <= j < k :: rows[j].AssetClassRow? && rows[j].code.Some? && rows[j].code == rows[k].parent
  }

  lemma EarlierAssetClassIsKnown(l: Lookups, rows: seq<Row>, j: nat, k: nat)
    requires j < k < |rows| && ApplyRows(l, rows).Some? && rows[j].AssetClassRow?
    ensures ApplyRows(l, rows[..k]).Some? && Known(ApplyRows(l, rows[..k]).value.0.assetClasses, rows[j].code)
  {
    var now := RunAt(l, rows, k);
    var before := RunAt(l, rows[..k], j);
  }

  /** With parents first, one run is enough. */
  lemma ParentsFirstNeedsOneRun(l: Lookups, rows: seq<Row>)
    requires ParentsFirst(l, rows)
    ensures var once := AfterRun(l, rows);
            AfterRun(once, rows) == once
  {
    var once := AfterRun(l, rows);
    if ApplyRows(l, rows).Some? {
      forall r | r in rows ensures Idle(once, r) {
        var k :| 0 <= k < |rows| && rows[k] == r;
        var now := RunAt(l, rows, k);
        if r.SubAssetClassRow? {
          if Known(l.assetClasses, r.parent) {
            RunExtends(l, rows[..k]);
          } else {
            var j :| 0 <= j < k && rows[j].AssetClassRow? && rows[j].code == r.parent;
            EarlierAssetClassIsKnown(l, rows, j, k);
          }
        }
        SettledRowIsIdle(now, r, once);
      }
      IdleRowsRunIdle(once, rows);
    }
  }

  /**
   After a committed run, a second run that commits changes the tables exactly when some sub
   asset class was refused for a parent that the batch then added, and is still missing.
   */
  lemma SecondRunWorksIffParentCameLate(l: Lookups, rows: seq<Row>)
    requires ApplyRows(l, rows).Some?
    requires ApplyRows(AfterRun(l, rows), rows).Some?
    ensures var once := AfterRun(l, rows);
            AfterRun(once, rows) != once
            <==> exists r <- rows :: r.SubAssetClassRow? && Known(once.assetClasses, r.parent) && !Known(once.subAssetClasses, SubKey(r))
  {
    var once := AfterRun(l, rows);
    var twice := AfterRun(once, rows);
    if r :| r in rows && r.SubAssetClassRow? && Known(once.assetClasses, r.parent) && !Known(once.subAssetClasses, SubKey(r)) {
      var k :| 0 <= k < |rows| && rows[k] == r;
      var now := RunAt(once, rows, k);
      RunExtends(once, rows[..k]);
      assert Known(twice.subAssetClasses, SubKey(r));
    } else {
      forall r | r in rows ensures Idle(once, r) {
        var k :| 0 <= k < |rows| && rows[k] == r;
        var now := RunAt(l, rows, k);
        if !r.SubAssetClassRow? { SettledRowIsIdle(now, r, once); }
      }
      IdleRowsRunIdle(once, rows);
    }
  }
}
