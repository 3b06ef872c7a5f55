/** What applied change requests do to the live configurations, over one run and over any sequence of runs. */
module ConfigHistory {
  import opened PrimaryAccountId
  import opened Wrappers
  import opened ConfigApply

  /** The ids a staged row can write: what it derives for an insert, what it targets otherwise. */
  function Touched(row: Staged): set<string> {
    if DerivedId(row) == "" && !row.action.Delete? then {}
    else match row.action
      case Create => {DerivedId(row)}
      case Update => {DerivedId(row), TargetId(row)}
      case Delete => {TargetId(row)}
      case Unknown => {}
  }

  /** Nothing is removed, an inactive row is final, and rows outside `named` are the same. */
  ghost predicate Extends(before: Live, after: Live, named: set<string>) {
    && (forall id <- before :: id in after)
    && (forall id <- before :: !before[id].active ==> after[id] == before[id])
    && (forall id :: id !in named ==> SameRow(before, after, id))
  }

  ghost predicate SameRow(before: Live, after: Live, id: string) {
    (id in before <==> id in after) && (id in before ==> after[id] == before[id])
  }

  lemma RowExtends(env: Env, live: Live, row: Staged)
    requires ApplyRow(env, live, row).Some?
    ensures Extends(live, ApplyRow(env, live, row).value.0, Touched(row))
  {
    hide DerivedId, TargetId, RowAllowed, DatesOk;
  }

  function AllTouched(rows: seq<Staged>): set<string> {
    set r, id | r in rows && id in Touched(r) :: id
  }

  lemma ExtendsTrans(a: Live, b: Live, c: Live, x: set<string>, y: set<string>)
    requires Extends(a, b, x) && Extends(b, c, y)
    ensures Extends(a, c, x + y)
  {
  }

  lemma {:induction false} RunExtends(env: Env, live: Live, rows: seq<Staged>)
    requires ApplyRows(env, live, rows).Some?
    ensures Extends(live, ApplyRows(env, live, rows).value.0, AllTouched(rows))
    decreases |rows|
  {
    hide ApplyRow, Touched;
    if rows != [] {
      var next := ApplyRow(env, live, rows[0]).value.0;
      var last := ApplyRows(env, next, rows[1..]).value.0;
      RowExtends(env, live, rows[0]);
      RunExtends(env, next, rows[1..]);
      ExtendsTrans(live, next, last, Touched(rows[0]), AllTouched(rows[1..]));
      assert AllTouched(rows) == Touched(rows[0]) + AllTouched(rows[1..]);
    }
  }

  // ---- Any sequence of change requests ----

  datatype Request = Request(env: Env, rows: seq<Staged>)

  /** The live table after one call: the run's result if it commits, otherwise as before. */
  function AfterChange(live: Live, r: Request): Live {
    match ApplyRows(r.env, live, r.rows) case Some((next, _)) => next case None => live
  }

  function AfterChanges(live: Live, rs: seq<Request>): Live
    decreases |rs|
  {
    if rs == [] then live else AfterChanges(AfterChange(live, rs[0]), rs[1..])
  }

  function NamedIn(rs: seq<Request>): set<string> {
    if rs == [] then {} else AllTouched(rs[0].rows) + NamedIn(rs[1..])
  }

  /** Over any sequence of applied changes, no row goes, no inactive row changes, and unnamed rows are untouched. */
  lemma {:induction false} HistoryIsKept(live: Live, rs: seq<Request>)
    ensures Extends(live, AfterChanges(live, rs), NamedIn(rs))
    decreases |rs|
  {
    if rs != [] {
      var next := AfterChange(live, rs[0]);
      if ApplyRows(rs[0].env, live, rs[0].rows).Some? {
        RunExtends(rs[0].env, live, rs[0].rows);
      }
      assert Extends(live, next, AllTouched(rs[0].rows));
      HistoryIsKept(next, rs[1..]);
      ExtendsTrans(live, next, AfterChanges(live, rs), AllTouched(rs[0].rows), NamedIn(rs[1..]));
    }
  }

  // ---- An identity-changing update ----

  lemma {:induction false} RunSplits(env: Env, live: Live, rows: seq<Staged>, k: nat)
    requires k <= |rows| && ApplyRows(env, live, rows).Some?
    ensures var run := ApplyRows(env, live, rows).value;
            && ApplyRows(env, live, rows[..k]).Some?
            && var part := ApplyRows(env, live, rows[..k]).value;
            && ApplyRows(env, part.0, rows[k..]) == Some((run.0, run.1[k..]))
            && part.1 == run.1[..k]
    decreases |rows|
  {
    hide ApplyRow;
    if k == 0 {
      assert rows[..k] == [] && rows[k..] == rows;
    } else {
      var (next, outcome) := ApplyRow(env, live, rows[0]).value;
      RunSplits(env, next, rows[1..], k - 1);
      assert rows[..k][0] == rows[0] && rows[..k][1..] == rows[1..][..k - 1];
      assert rows[k..] == rows[1..][k - 1..];
      var rest := ApplyRows(env, next, rows[1..]).value.1;
      assert ([outcome] + rest)[k..] == rest[k - 1..];
      assert ([outcome] + rest)[..k] == [outcome] + rest[..k - 1];
    }
  }

  /** Where a committed run stands when it reaches its k-th row, and just after it. */
  lemma RunAt(env: Env, live: Live, rows: seq<Staged>, k: nat) returns (before: Live, after: Live)
    requires k < |rows| && ApplyRows(env, live, rows).Some?
    ensures ApplyRows(env, live, rows[..k]).Some? && before == ApplyRows(env, live, rows[..k]).value.0
    ensures ApplyRow(env, before, rows[k]) == Some((after, ApplyRows(env, live, rows).value.1[k]))
    ensures ApplyRows(env, after, rows[k + 1..]).Some?
    ensures ApplyRows(env, after, rows[k + 1..]).value.0 == ApplyRows(env, live, rows).value.0
  {
    hide ApplyRow;
    RunSplits(env, live, rows, k);
    before := ApplyRows(env, live, rows[..k]).value.0;
    assert rows[k..][0] == rows[k] && rows[k..][1..] == rows[k + 1..];
    after := ApplyRow(env, before, rows[k]).value.0;
  }

  lemma AppliedUpdateClosesAndInserts(env: Env, live: Live, row: Staged)
    requires row.action.Update? && DerivedId(row) != TargetId(row)
    requires ApplyRow(env, live, row).Some? && ApplyRow(env, live, row).value.1.status == Applied
    ensures var next := ApplyRow(env, live, row).value.0;
            && TargetId(row) in next && !next[TargetId(row)].active
            && DerivedId(row) in next && DerivedId(row) !in live
  {
    hide DerivedId, TargetId, RowAllowed, DatesOk;
  }

  /** When an identity-changing update is reported applied, its target is closed and its successor is there. */
  lemma ClosedTargetHasSuccessor(env: Env, live: Live, rows: seq<Staged>, k: nat)
    requires k < |rows| && ApplyRows(env, live, rows).Some?
    requires rows[k].action.Update? && DerivedId(rows[k]) != TargetId(rows[k])
    requires ApplyRows(env, live, rows).value.1[k].status == Applied
    ensures var last := ApplyRows(env, live, rows).value.0;
            && TargetId(rows[k]) in last && !last[TargetId(rows[k])].active
            && DerivedId(rows[k]) in last
            && ApplyRows(env, live, rows[..k]).Some? && DerivedId(rows[k]) !in ApplyRows(env, live, rows[..k]).value.0
  {
    hide ApplyRow, ApplyRows, DerivedId, TargetId;
    var before, after := RunAt(env, live, rows, k);
    AppliedUpdateClosesAndInserts(env, before, rows[k]);
    RunExtends(env, after, rows[k + 1..]);
  }

  // ---- One account per change ----

  /** UNIQUE change_request_id: a change request is the lineage of at most one live row. */
  ghost predicate UniqueLineage(live: Live) {
    forall a <- live, b <- live | a != b && live[a].change.Some? :: live[a].change != live[b].change
  }

  predicate Carries(live: Live, id: string, change: ChangeId) {
    id in live && live[id].change == Some(change)
  }

  lemma RowCarriesOn(env: Env, live: Live, row: Staged, id: string)
    requires ApplyRow(env, live, row).Some?
    ensures Carries(live, id, env.change) ==> Carries(ApplyRow(env, live, row).value.0, id, env.change)
    ensures id !in live && id in ApplyRow(env, live, row).value.0 ==> Carries(ApplyRow(env, live, row).value.0, id, env.change)
  {
    hide DerivedId, TargetId, DatesOk, RowAllowed;
  }

  lemma WriteKeepsLineage(env: Env, live: Live, id: string, row: Config)
    requires UniqueLineage(live) && RowAllowed(env, live, id, row)
    ensures UniqueLineage(live[id := row])
  {
    hide Parse, DatesOk;
  }

  lemma CloseKeepsLineage(live: Live, id: string, date: Date)
    requires UniqueLineage(live) && id in live
    ensures UniqueLineage(live[id := Closed(live[id], date)])
  {
  }

  lemma RowKeepsLineage(env: Env, live: Live, row: Staged)
    requires UniqueLineage(live) && ApplyRow(env, live, row).Some?
    ensures UniqueLineage(ApplyRow(env, live, row).value.0)
  {
    hide DerivedId, TargetId, DatesOk, UniqueLineage, RowAllowed;
    var derived, target, written := DerivedId(row), TargetId(row), Written(env, row);
    if ApplyRow(env, live, row).value.1.status == Applied {
      match row.action
      case Create => WriteKeepsLineage(env, live, derived, written);
      case Update =>
        if derived == target {
          WriteKeepsLineage(env, live, target, written);
        } else {
          var date := row.values.effectiveFrom;
          CloseKeepsLineage(live, target, date);
          WriteKeepsLineage(env, live[target := Closed(live[target], date)], derived, written);
        }
      case Delete => CloseKeepsLineage(live, target, RetirementDate(row));
      case Unknown =>
    }
  }

  lemma {:induction false} RunKeepsLineage(env: Env, live: Live, rows: seq<Staged>)
    requires UniqueLineage(live) && ApplyRows(env, live, rows).Some?
    ensures UniqueLineage(ApplyRows(env, live, rows).value.0)
    ensures forall id :: Carries(live, id, env.change) ==> Carries(ApplyRows(env, live, rows).value.0, id, env.change)
    decreases |rows|
  {
    hide ApplyRow, UniqueLineage, Carries;
    if rows != [] {
      RowKeepsLineage(env, live, rows[0]);
      forall id ensures Carries(live, id, env.change) ==> Carries(ApplyRow(env, live, rows[0]).value.0, id, env.change) {
        RowCarriesOn(env, live, rows[0], id);
      }
      RunKeepsLineage(env, ApplyRow(env, live, rows[0]).value.0, rows[1..]);
    }
  }

  /** An applied create or update. */
  predicate Wrote(o: Outcome) {
    o.status == Applied && !o.action.Delete?
  }

  lemma AppliedWriteCarries(env: Env, live: Live, row: Staged)
    requires ApplyRow(env, live, row).Some?
    ensures var (next, outcome) := ApplyRow(env, live, row).value;
            Wrote(outcome) ==> Carries(next, outcome.account, env.change)
  {
    hide DerivedId, TargetId, RowAllowed, DatesOk;
  }

  /** After a committed run, an account a create or update was applied to carries the change's id. */
  lemma AppliedAccountCarries(env: Env, live: Live, rows: seq<Staged>, k: nat)
    requires UniqueLineage(live) && ApplyRows(env, live, rows).Some? && k < |rows|
    ensures var (last, outcomes) := ApplyRows(env, live, rows).value;
            UniqueLineage(last) && (Wrote(outcomes[k]) ==> Carries(last, outcomes[k].account, env.change))
  {
    hide ApplyRow, UniqueLineage;
    var before, after := RunAt(env, live, rows, k);
    AppliedWriteCarries(env, before, rows[k]);
    RunKeepsLineage(env, live, rows);
    RunKeepsLineage(env, live, rows[..k]);
    RowKeepsLineage(env, before, rows[k]);
    RunKeepsLineage(env, after, rows[k + 1..]);
  }

  /** A committed run writes all its creates and updates to one account, however many rows were staged. */
  lemma OneAccountPerChange(env: Env, live: Live, rows: seq<Staged>, j: nat, k: nat)
    requires UniqueLineage(live) && ApplyRows(env, live, rows).Some? && j < k < |rows|
    ensures var outcomes := ApplyRows(env, live, rows).value.1;
            Wrote(outcomes[j]) && Wrote(outcomes[k]) ==> outcomes[j].account == outcomes[k].account
  {
    hide ApplyRow, ApplyRows;
    AppliedAccountCarries(env, live, rows, j);
    AppliedAccountCarries(env, live, rows, k);
  }

  // ---- Counting active rows ----

  function ActiveIds(live: Live): set<string> {
    set id | id in live && live[id].active
  }

  function AppliedCount(outcomes: seq<Outcome>, action: Action): nat {
    if outcomes == [] then 0
    else (if outcomes[0].status == Applied && outcomes[0].action == action then 1 else 0) + AppliedCount(outcomes[1..], action)
  }

  ghost predicate AllStagedActive(rows: seq<Staged>) {
    forall r <- rows :: r.values.active
  }

  lemma RowMovesActive(env: Env, live: Live, row: Staged)
    requires row.values.active && ApplyRow(env, live, row).Some?
    ensures var (next, outcome) := ApplyRow(env, live, row).value;
            if outcome.status != Applied then ActiveIds(next) == ActiveIds(live)
            else match row.action
              case Create => DerivedId(row) !in ActiveIds(live) && ActiveIds(next) == ActiveIds(live) + {DerivedId(row)}
              case Update =>
                && TargetId(row) in ActiveIds(live)
                && (DerivedId(row) == TargetId(row) || DerivedId(row) !in ActiveIds(live))
                && ActiveIds(next) == ActiveIds(live) - {TargetId(row)} + {DerivedId(row)}
              case Delete => TargetId(row) in ActiveIds(live) && ActiveIds(next) == ActiveIds(live) - {TargetId(row)}
              case Unknown => false
  {
    hide DerivedId, TargetId, RowAllowed, DatesOk;
    assert Written(env, row).active;
    forall date, id | id in live ensures !Closed(live[id], date).active {}
  }

  lemma OutcomeNamesAction(env: Env, live: Live, row: Staged)
    requires ApplyRow(env, live, row).Some?
    ensures ApplyRow(env, live, row).value.1.action == row.action
  {
    hide DerivedId, TargetId, RowAllowed, DatesOk;
  }

  lemma RowMovesCount(env: Env, live: Live, row: Staged)
    requires row.values.active && ApplyRow(env, live, row).Some?
    ensures var (next, outcome) := ApplyRow(env, live, row).value;
            |ActiveIds(next)| == |ActiveIds(live)| + AppliedCount([outcome], Create) - AppliedCount([outcome], Delete)
  {
    RowMovesActive(env, live, row);
    OutcomeNamesAction(env, live, row);
    hide ApplyRow, ActiveIds, DerivedId, TargetId;
    var outcome := ApplyRow(env, live, row).value.1;
    assert [outcome][1..] == [];
  }

  /** With staged rows active, a committed run moves the active count by applied creates minus applied deletes. */
  lemma {:induction false} RunMovesCount(env: Env, live: Live, rows: seq<Staged>)
    requires AllStagedActive(rows) && ApplyRows(env, live, rows).Some?
    ensures var (last, outcomes) := ApplyRows(env, live, rows).value;
            |ActiveIds(last)| == |ActiveIds(live)| + AppliedCount(outcomes, Create) - AppliedCount(outcomes, Delete)
    decreases |rows|
  {
    hide ApplyRow, ActiveIds;
    if rows != [] {
      var (next, outcome) := ApplyRow(env, live, rows[0]).value;
      assert rows[0] in rows;
      RowMovesCount(env, live, rows[0]);
      RunMovesCount(env, next, rows[1..]);
      var (last, outcomes) := ApplyRows(env, next, rows[1..]).value;
      assert ApplyRows(env, live, rows).value.1 == [outcome] + outcomes;
    }
  }

  /** Applied outcomes of one kind over a sequence of change requests; an aborted request applies nothing. */
  function AppliedOver(live: Live, rs: seq<Request>, action: Action): nat
    decreases |rs|
  {
    if rs == [] then 0
    else
      (match ApplyRows(rs[0].env, live, rs[0].rows) case Some((_, outcomes)) => AppliedCount(outcomes, action) case None => 0)
      + AppliedOver(AfterChange(live, rs[0]), rs[1..], action)
  }

  /** Over any sequence of change requests, committed or aborted, the active count moves by creates minus deletes. */
  lemma {:induction false} ChangesMoveCount(live: Live, rs: seq<Request>)
    requires forall r <- rs :: AllStagedActive(r.rows)
    ensures |ActiveIds(AfterChanges(live, rs))|
            == |ActiveIds(live)| + AppliedOver(live, rs, Create) - AppliedOver(live, rs, Delete)
    decreases |rs|
  {
    hide ApplyRows, ActiveIds, AppliedCount, AllStagedActive;
    if rs != [] {
      if ApplyRows(rs[0].env, live, rs[0].rows).Some? {
        RunMovesCount(rs[0].env, live, rs[0].rows);
      }
      ChangesMoveCount(AfterChange(live, rs[0]), rs[1..]);
    }
  }

  // ---- Dates that abort a run ----

  /** A retirement fails exactly when it would end an active account before its start. */
  lemma RetirementFailsIff(env: Env, live: Live, row: Staged)
    requires row.action.Delete?
    ensures ApplyRow(env, live, row).None?
            <==> ActiveIn(live, TargetId(row)) && RetirementDate(row) < live[TargetId(row)].effectiveFrom
  {
    hide TargetId;
  }

  /** The run then aborts, at whichever row; so does closing out an account for a successor before its start. */
  lemma EndingBeforeStartAborts(env: Env, live: Live, rows: seq<Staged>, k: nat)
    requires k < |rows| && ApplyRows(env, live, rows[..k]).Some?
    requires var now, target := ApplyRows(env, live, rows[..k]).value.0, TargetId(rows[k]);
             && ActiveIn(now, target)
             && (|| (rows[k].action.Delete? && RetirementDate(rows[k]) < now[target].effectiveFrom)
                 || (&& rows[k].action.Update? && DerivedId(rows[k]) != "" && DerivedId(rows[k]) != target
                     && rows[k].values.effectiveFrom < now[target].effectiveFrom))
    ensures ApplyRows(env, live, rows).None?
  {
    hide TargetId, DerivedId, ApplyRows;
    assert rows[..k + 1] == rows[..k] + [rows[k]];
    RunOneMore(env, live, rows[..k], rows[k]);
    PrefixDecides(env, live, rows, k + 1);
  }
}
