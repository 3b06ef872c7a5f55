/** What running the same change a second time does to the live configurations. */
module ConfigReprocessing {
  import opened PrimaryAccountId
  import opened Wrappers
  import opened ConfigApply
  import opened ConfigHistory

  /** An UPDATE that keeps the id of its target. */
  predicate Rewrites(row: Staged, id: string) {
    row.action.Update? && id != "" && DerivedId(row) == id == TargetId(row)
  }

  predicate Retires(row: Staged, id: string) {
    row.action.Delete? && TargetId(row) == id
  }

  /** What a row does to a configuration that is there: rewrite it in place, close it, or nothing. */
  function ReplayRow(env: Env, id: string, now: Config, row: Staged): Config {
    if !now.active then now
    else if Rewrites(row, id) then Written(env, row)
    else if Retires(row, id) then Closed(now, RetirementDate(row))
    else now
  }

  function Replay(env: Env, id: string, now: Config, rows: seq<Staged>): Config
    decreases |rows|
  {
    if rows == [] then now else Replay(env, id, ReplayRow(env, id, now, rows[0]), rows[1..])
  }

  /** A second run under way: no account added or lost, inactive ones untouched, lineage kept. */
  ghost predicate Follows(second: Live, last: Live, change: ChangeId) {
    && second.Keys == last.Keys
    && (forall id <- last :: !last[id].active ==> second[id] == last[id])
    && (forall id <- last :: last[id].change == Some(change) ==> second[id].change == Some(change))
  }

  /** What a run inserts carries the change's id at its end. */
  lemma {:induction false} InsertedCarries(env: Env, live: Live, rows: seq<Staged>, id: string)
    requires ApplyRows(env, live, rows).Some?
    requires id in ApplyRows(env, live, rows).value.0 && (id in live ==> Carries(live, id, env.change))
    ensures Carries(ApplyRows(env, live, rows).value.0, id, env.change)
    decreases |rows|
  {
    hide ApplyRow;
    if rows != [] {
      RowCarriesOn(env, live, rows[0], id);
      InsertedCarries(env, ApplyRow(env, live, rows[0]).value.0, rows[1..], id);
    }
  }

  /** Where a row's first run stands to the end of that run. */
  ghost predicate Preceded(env: Env, now: Live, row: Staged, last: Live) {
    && ApplyRow(env, now, row).Some?
    && (forall id <- ApplyRow(env, now, row).value.0 :: id in last)
    && (forall id <- now :: id in last && (!now[id].active ==> last[id] == now[id]))
    && (TargetId(row) !in now && TargetId(row) in last ==> Carries(last, TargetId(row), env.change))
  }

  ghost predicate Replayed(env: Env, before: Live, after: Live, row: Staged) {
    after.Keys == before.Keys && forall id <- before :: after[id] == ReplayRow(env, id, before[id], row)
  }

  /** An identity-changing update never applies a second time: its successor is there, or its target holds the change's id. */
  lemma SecondIdentityChangeFails(env: Env, again: Env, now: Live, second: Live, row: Staged, last: Live)
    requires again.change == env.change && Preceded(env, now, row, last) && Follows(second, last, env.change)
    requires row.action.Update? && DerivedId(row) != TargetId(row) && DerivedId(row) != "" && ActiveIn(second, TargetId(row))
    ensures ApplyRow(again, second, row).None?
  {
    hide DerivedId, TargetId, DatesOk;
    var target, derived := TargetId(row), DerivedId(row);
    var retired := second[target := Closed(second[target], row.values.effectiveFrom)];
    if target in now {
      assert derived in last;
    } else {
      assert retired[target].change == Written(again, row).change;
      assert !RowAllowed(again, retired, derived, Written(again, row));
    }
  }

  /** In a second run a row inserts nothing, and rewrites or closes only its own account. */
  lemma SecondRowReplays(env: Env, again: Env, now: Live, second: Live, row: Staged, last: Live)
    requires again.change == env.change && Preceded(env, now, row, last)
    requires Follows(second, last, env.change) && ApplyRow(again, second, row).Some?
    ensures Replayed(env, second, ApplyRow(again, second, row).value.0, row)
    ensures Follows(ApplyRow(again, second, row).value.0, last, env.change)
  {
    hide DerivedId, TargetId, DatesOk, RowAllowed;
    if row.action.Update? && DerivedId(row) != TargetId(row) && DerivedId(row) != "" {
      if ActiveIn(second, TargetId(row)) {
        SecondIdentityChangeFails(env, again, now, second, row, last);
      }
    } else if row.action.Create? && DerivedId(row) != "" {
      assert DerivedId(row) in last;
    }
  }

  lemma RunPrecedes(env: Env, now: Live, rows: seq<Staged>)
    requires rows != [] && ApplyRows(env, now, rows).Some?
    ensures Preceded(env, now, rows[0], ApplyRows(env, now, rows).value.0)
  {
    var next, last := ApplyRow(env, now, rows[0]).value.0, ApplyRows(env, now, rows).value.0;
    RunExtends(env, now, rows);
    RunExtends(env, next, rows[1..]);
    if TargetId(rows[0]) !in now && TargetId(rows[0]) in last {
      InsertedCarries(env, now, rows, TargetId(rows[0]));
    }
    hide ApplyRow, Touched, AllTouched, TargetId;
  }

  /** A second run that commits does to each account what its rows do to that account alone. */
  lemma {:induction false} SecondRunReplays(env: Env, again: Env, now: Live, second: Live, rows: seq<Staged>)
    requires again.change == env.change && ApplyRows(env, now, rows).Some? && ApplyRows(again, second, rows).Some?
    requires Follows(second, ApplyRows(env, now, rows).value.0, env.change)
    ensures var last, end := ApplyRows(env, now, rows).value.0, ApplyRows(again, second, rows).value.0;
            end.Keys == last.Keys && forall id <- last :: end[id] == Replay(env, id, second[id], rows)
    decreases |rows|
  {
    hide ApplyRow, ReplayRow, Preceded;
    if rows != [] {
      RunPrecedes(env, now, rows);
      SecondRowReplays(env, again, now, second, rows[0], ApplyRows(env, now, rows).value.0);
      SecondRunReplays(env, again, ApplyRow(env, now, rows[0]).value.0, ApplyRow(again, second, rows[0]).value.0, rows[1..]);
    }
  }

  /** The row leaves its account inactive. */
  predicate Kills(row: Staged, id: string) {
    Retires(row, id) || (Rewrites(row, id) && !row.values.active)
  }

  lemma {:induction false} ReplayActive(env: Env, id: string, now: Config, rows: seq<Staged>)
    ensures !now.active ==> Replay(env, id, now, rows) == now
    ensures Replay(env, id, now, rows).active <==> now.active && forall r <- rows :: !Kills(r, id)
    decreases |rows|
  {
    if rows != [] {
      assert ReplayRow(env, id, now, rows[0]).active <==> now.active && !Kills(rows[0], id);
      hide ReplayRow, Kills;
      ReplayActive(env, id, ReplayRow(env, id, now, rows[0]), rows[1..]);
      assert rows == [rows[0]] + rows[1..];
    }
  }

  /** An account that stays active ends as its last rewrite, if it has one. */
  lemma {:induction false} ReplayEndsInLastRewrite(env: Env, id: string, now: Config, rows: seq<Staged>, m: int)
    requires -1 <= m < |rows| && Replay(env, id, now, rows).active
    requires m >= 0 ==> Rewrites(rows[m], id)
    requires forall j | m < j < |rows| :: !Rewrites(rows[j], id)
    ensures Replay(env, id, now, rows) == if m >= 0 then Written(env, rows[m]) else now
    decreases |rows|
  {
    ReplayActive(env, id, now, rows);
    if rows != [] {
      assert !Kills(rows[0], id);
      hide Rewrites, Retires;
      ReplayEndsInLastRewrite(env, id, ReplayRow(env, id, now, rows[0]), rows[1..], if m > 0 then m - 1 else -1);
    }
  }

  lemma RowReplays(env: Env, now: Live, row: Staged, id: string)
    requires ApplyRow(env, now, row).Some? && id in now
    ensures var next := ApplyRow(env, now, row).value.0;
            id in next && (next[id].active ==> now[id].active && next[id] == ReplayRow(env, id, now[id], row))
  {
    hide DerivedId, TargetId, DatesOk, RowAllowed;
  }

  /** In the first run, too, an account that is there and ends active is what the rows make of it alone. */
  lemma {:induction false} FirstRunReplays(env: Env, now: Live, rows: seq<Staged>, id: string)
    requires ApplyRows(env, now, rows).Some? && id in now
    ensures var last := ApplyRows(env, now, rows).value.0;
            id in last && (last[id].active ==> now[id].active && last[id] == Replay(env, id, now[id], rows))
    decreases |rows|
  {
    hide ApplyRow, ReplayRow;
    if rows != [] {
      RowReplays(env, now, rows[0], id);
      FirstRunReplays(env, ApplyRow(env, now, rows[0]).value.0, rows[1..], id);
    }
  }

  /** Row k targets an account that the first run inserted only after it. */
  ghost predicate TargetsLater(env: Env, live: Live, rows: seq<Staged>, k: int) {
    && 0 <= k < |rows| && ApplyRows(env, live, rows).Some? && ApplyRows(env, live, rows[..k]).Some?
    && TargetId(rows[k]) !in ApplyRows(env, live, rows[..k]).value.0
    && TargetId(rows[k]) in ApplyRows(env, live, rows).value.0
  }

  /**
   What makes a second run differ: a row that came before its account was inserted, and now
   finds it active. It retires the account, or rewrites it with values the first run did not
   leave and no later row rewrites them.
   */
  ghost predicate Undoes(env: Env, live: Live, rows: seq<Staged>, k: int) {
    && TargetsLater(env, live, rows, k)
    && var last, id := ApplyRows(env, live, rows).value.0, TargetId(rows[k]);
    && last[id].active
    && (|| Kills(rows[k], id)
        || (&& Rewrites(rows[k], id) && Written(env, rows[k]) != last[id]
            && forall j | k < j < |rows| :: !Rewrites(rows[j], id)))
  }

  lemma FirstRunFrom(env: Env, live: Live, rows: seq<Staged>, k: nat, id: string)
    requires k < |rows| && ApplyRows(env, live, rows).Some?
    requires id in ApplyRows(env, live, rows).value.0 && ApplyRows(env, live, rows).value.0[id].active
    requires TargetId(rows[k]) == id && !TargetsLater(env, live, rows, k)
    ensures !Kills(rows[k], id)
    ensures Rewrites(rows[k], id) && (forall j | k < j < |rows| :: !Rewrites(rows[j], id)) ==>
              ApplyRows(env, live, rows).value.0[id] == Written(env, rows[k])
  {
    hide ApplyRow, ApplyRows, Kills, Rewrites, Written;
    RunSplits(env, live, rows, k);
    var now, rest := ApplyRows(env, live, rows[..k]).value.0, rows[k..];
    FirstRunReplays(env, now, rest, id);
    ReplayActive(env, id, now[id], rest);
    assert rest[0] == rows[k];
    if Rewrites(rows[k], id) && forall j | k < j < |rows| :: !Rewrites(rows[j], id) {
      ReplayEndsInLastRewrite(env, id, now[id], rest, 0);
    }
  }

  /** The last of the first n rows that rewrites an account, or -1. */
  lemma {:induction false} LastRewrite(rows: seq<Staged>, id: string, n: nat) returns (m: int)
    requires n <= |rows|
    ensures -1 <= m < n && (m >= 0 ==> Rewrites(rows[m], id))
    ensures forall j | m < j < n :: !Rewrites(rows[j], id)
  {
    hide Rewrites;
    m := n - 1;
    if n > 0 && !Rewrites(rows[m], id) {
      m := LastRewrite(rows, id, n - 1);
    }
  }

  /** An account changes in a committing second run exactly when some row undoes it. */
  lemma AccountChangesIff(env: Env, live: Live, rows: seq<Staged>, id: string)
    requires ApplyRows(env, live, rows).Some? && id in ApplyRows(env, live, rows).value.0
    ensures var last := ApplyRows(env, live, rows).value.0;
            Replay(env, id, last[id], rows) != last[id] <==> exists k :: Undoes(env, live, rows, k) && TargetId(rows[k]) == id
  {
    var last := ApplyRows(env, live, rows).value.0;
    ReplayActive(env, id, last[id], rows);
    if last[id].active {
      if r :| r in rows && Kills(r, id) {
        var k :| 0 <= k < |rows| && rows[k] == r;
        if !TargetsLater(env, live, rows, k) { FirstRunFrom(env, live, rows, k, id); }
        assert Undoes(env, live, rows, k);
      } else {
        var m := LastRewrite(rows, id, |rows|);
        ReplayEndsInLastRewrite(env, id, last[id], rows, m);
        if m >= 0 {
          if !TargetsLater(env, live, rows, m) { FirstRunFrom(env, live, rows, m, id); }
          assert Undoes(env, live, rows, m) <==> Written(env, rows[m]) != last[id];
        }
        forall k | Undoes(env, live, rows, k) && TargetId(rows[k]) == id ensures k == m {
          assert rows[k] in rows;
        }
      }
    }
  }

  /** Running a committed change again changes the live table if and only if that run commits too and some row undoes. */
  lemma ReprocessingChangesIff(env: Env, again: Env, live: Live, rows: seq<Staged>)
    requires again.change == env.change && ApplyRows(env, live, rows).Some?
    ensures var last := ApplyRows(env, live, rows).value.0;
            AfterChange(last, Request(again, rows)) != last
            <==> ApplyRows(again, last, rows).Some? && exists k :: Undoes(env, live, rows, k)
  {
    hide ApplyRow, ApplyRows, Replay;
    var last := ApplyRows(env, live, rows).value.0;
    if ApplyRows(again, last, rows).Some? {
      var end := ApplyRows(again, last, rows).value.0;
      SecondRunReplays(env, again, live, last, rows);
      forall id <- last ensures end[id] != last[id] <==> exists k :: Undoes(env, live, rows, k) && TargetId(rows[k]) == id {
        AccountChangesIff(env, live, rows, id);
      }
      hide Undoes;
      if k :| Undoes(env, live, rows, k) {
        UndoesItsTarget(env, live, rows, k);
        assert end[TargetId(rows[k])] != last[TargetId(rows[k])];
      } else {
        assert forall id <- last :: end[id] == last[id];
        assert end == last;
      }
    }
  }

  lemma UndoesItsTarget(env: Env, live: Live, rows: seq<Staged>, k: int)
    requires Undoes(env, live, rows, k)
    ensures 0 <= k < |rows| && ApplyRows(env, live, rows).Some? && TargetId(rows[k]) in ApplyRows(env, live, rows).value.0
    ensures TargetId(rows[k]) !in live && rows[k] in rows && (rows[k].action.Update? || rows[k].action.Delete?)
  {
    hide ApplyRow, DerivedId, TargetId;
    RunExtends(env, live, rows[..k]);
  }

  /**
   So it changes nothing, committing or not and whatever the reference tables have become,
   when every account the rows update or retire was there before the first run, or is not
   there after it.
   */
  lemma ReprocessingChangesNothing(env: Env, again: Env, live: Live, rows: seq<Staged>)
    requires again.change == env.change && ApplyRows(env, live, rows).Some?
    requires forall r <- rows | r.action.Update? || r.action.Delete? ::
               TargetId(r) in live || TargetId(r) !in ApplyRows(env, live, rows).value.0
    ensures var last := ApplyRows(env, live, rows).value.0;
            AfterChange(last, Request(again, rows)) == last
  {
    hide ApplyRow, ApplyRows, Undoes, TargetId, AfterChange;
    ReprocessingChangesIff(env, again, live, rows);
    forall k ensures !Undoes(env, live, rows, k) {
      if Undoes(env, live, rows, k) { UndoesItsTarget(env, live, rows, k); }
    }
  }

  /** What staging asks of an UPDATE or DELETE: an explicit target that exists. */
  predicate Stageable(live: Live, row: Staged) {
    row.action.Update? || row.action.Delete? ==> row.target.Some? && row.target.value in live
  }

  /** Hence every batch that could be staged, whatever was applied since, is idempotent once it has committed. */
  lemma StagedBatchesAreIdempotent(staging: Live, since: seq<Request>, env: Env, again: Env, rows: seq<Staged>)
    requires forall r <- rows :: Stageable(staging, r)
    requires again.change == env.change && ApplyRows(env, AfterChanges(staging, since), rows).Some?
    ensures var last := ApplyRows(env, AfterChanges(staging, since), rows).value.0;
            AfterChange(last, Request(again, rows)) == last
  {
    hide ApplyRow, ApplyRows, AfterChange, AfterChanges;
    HistoryIsKept(staging, since);
    ReprocessingChangesNothing(env, again, AfterChanges(staging, since), rows);
  }

  ghost predicate DisjointRows(rows: seq<Staged>) {
    forall j, k | 0 <= j < k < |rows| :: Touched(rows[j]) !! Touched(rows[k])
  }

  /** So is every batch, staged or not, whose rows touch pairwise disjoint accounts. */
  lemma DisjointBatchesAreIdempotent(env: Env, again: Env, live: Live, rows: seq<Staged>)
    requires again.change == env.change && DisjointRows(rows) && ApplyRows(env, live, rows).Some?
    ensures var last := ApplyRows(env, live, rows).value.0;
            AfterChange(last, Request(again, rows)) == last
  {
    hide ApplyRow, ApplyRows, AfterChange, TargetId, DerivedId;
    ReprocessingChangesIff(env, again, live, rows);
    forall k ensures !Undoes(env, live, rows, k) {
      if Undoes(env, live, rows, k) { UndoingRowsOverlap(env, live, rows, k); }
    }
  }

  lemma UndoingRowsOverlap(env: Env, live: Live, rows: seq<Staged>, k: int)
    requires Undoes(env, live, rows, k)
    ensures !DisjointRows(rows)
  {
    hide ApplyRow, ApplyRows, TargetId, DerivedId;
    var id := TargetId(rows[k]);
    var before, after := RunAt(env, live, rows, k);
    AbsentTargetIsLeft(env, before, rows[k]);
    RunExtends(env, after, rows[k + 1..]);
    assert !SameRow(after, ApplyRows(env, live, rows).value.0, id);
    assert id in AllTouched(rows[k + 1..]);
    var j :| k < j < |rows| && id in Touched(rows[j]);
    assert id in Touched(rows[k]) * Touched(rows[j]);
  }

  lemma AbsentTargetIsLeft(env: Env, live: Live, row: Staged)
    requires (row.action.Update? || row.action.Delete?) && TargetId(row) !in live && ApplyRow(env, live, row).Some?
    ensures ApplyRow(env, live, row).value.0 == live
  {
  }

  /**
   A batch that staging would refuse can undo itself: retire an account that is not there yet,
   then bring it about by an update; the second run retires it.
   */
  lemma OverlappingRowsCanUndo(env: Env, live: Live, retire: Staged, update: Staged)
    requires retire.action.Delete? && update.action.Update? && update.values.active
    requires TargetId(retire) == DerivedId(update) != TargetId(update)
    requires DerivedId(update) != "" && DerivedId(update) !in live && ActiveIn(live, TargetId(update))
    requires RetirementDate(retire) >= update.values.effectiveFrom
    requires ApplyRows(env, live, [retire, update]).Some?
    ensures var last := ApplyRows(env, live, [retire, update]).value.0;
            ActiveIn(last, DerivedId(update)) && !ActiveIn(AfterChange(last, Request(env, [retire, update])), DerivedId(update))
  {
    hide DerivedId, TargetId, RowAllowed;
    var rows := [retire, update];
    assert rows[1..] == [update] && [update][1..] == [];
    assert ApplyRow(env, live, retire) == Some((live, Outcome(Delete, TargetId(retire), Skipped)));
    var last := ApplyRow(env, live, update).value.0;
    assert ApplyRows(env, live, [update]).value.0 == last;
    assert ApplyRows(env, live, rows).value.0 == last;
    var second := ApplyRow(env, last, retire).value.0;
    assert ApplyRow(env, second, update) == Some((second, Outcome(Update, TargetId(update), Failed)));
    assert ApplyRows(env, second, [update][1..]) == Some((second, []));
    assert ApplyRows(env, second, [update]).value.0 == second;
    assert ApplyRows(env, last, rows).value.0 == second;
  }

  /** Such batches exist, for any two accounts: the new one takes over on the first run and is retired on the second. */
  lemma OverlappingRowsExample(former: Codes, latter: Codes) returns (env: Env, live: Live, retire: Staged, update: Staged)
    requires WellFormed(former) && WellFormed(latter) && former != latter
    ensures ApplyRows(env, live, [retire, update]).Some?
    ensures var last := ApplyRows(env, live, [retire, update]).value.0;
            AfterChange(last, Request(env, [retire, update])) != last
  {
    hide WellFormed, Generate, Build, Parse;
    BuildOfWellFormed(former);
    BuildOfWellFormed(latter);
    ParseGenerate(latter);
    assert Generate(former) != Generate(latter) && Generate(latter) != "" by {
      if Generate(former) == Generate(latter) { GenerateIsInjective(former, latter); }
    }
    var row := Config(former, "", "", 0, "", "", true, 0, None, None);
    env := Env(1, _ => true);
    live := map[Generate(former) := row];
    retire := Staged(1, Delete, Some(Generate(latter)), row);
    update := Staged(2, Update, Some(Generate(former)), row.(codes := latter));
    assert [retire, update][1..] == [update] && [update][1..] == [];
    assert ApplyRow(env, live, retire).value.0 == live;
    assert ApplyRow(env, live, update).Some?;
    assert ApplyRows(env, live, [update]).Some?;
    OverlappingRowsCanUndo(env, live, retire, update);
  }
}
