/**
 What a run of staged configurations stores, column by column: which rows abort it, what each
 row is reported as, and what every account holds at the end.
 */
module ConfigAccounts {
  import opened PrimaryAccountId
  import opened Text
  import opened Wrappers
  import opened ConfigApply
  import opened ConfigHistory

  // ---- The accounts a row names ----

  /** One of the four codes is blank, so no account can be named after them. */
  predicate Nameless(row: Staged) {
    var c := row.values.codes;
    Trim(c.client) == "" || Trim(c.assetClass) == "" || Trim(c.subAssetClass) == "" || Trim(c.manager) == ""
  }

  /** A row's own account spells its codes; the account it acts on is the target it gives, or else its own. */
  lemma AccountsOfRow(row: Staged)
    ensures DerivedId(row) == "" <==> Nameless(row)
    ensures !Nameless(row) ==> Validate(DerivedId(row), row.values.codes)
    ensures WellFormed(row.values.codes) ==> Parse(DerivedId(row)) == Some(row.values.codes)
    ensures if row.target.Some? then row.target == Some(TargetId(row)) else TargetId(row) == DerivedId(row)
  {
    hide WellFormed, Trim, Parse, Upper;
    var c := row.values.codes;
    GeneratedIsUpper(c);
    if WellFormed(c) {
      BuildOfWellFormed(c);
      ParseGenerate(c);
    }
  }

  lemma GeneratedIsUpper(c: Codes)
    ensures Upper(Generate(c)) == Generate(c) != ""
  {
    assert |Joined(c)| >= 2;
    UpperIsIdempotent(Joined(c));
    hide Joined;
  }

  // ---- Columns ----

  /** Every column as the row staged it, under the change's id. */
  predicate Stores(c: Config, row: Staged, change: ChangeId) {
    && c.codes == row.values.codes && c.portfolio == row.values.portfolio && c.benchmark == row.values.benchmark
    && c.npcClassification == row.values.npcClassification
    && c.longName == row.values.longName && c.shortName == row.values.shortName && c.active == row.values.active
    && c.effectiveFrom == row.values.effectiveFrom && c.effectiveUntil == row.values.effectiveUntil
    && c.change == Some(change)
  }

  /** Every column as it was, but inactive and ended at the date. */
  predicate EndedAt(c: Config, was: Config, date: Date) {
    && !c.active && c.effectiveUntil == Some(date)
    && c.codes == was.codes && c.portfolio == was.portfolio && c.benchmark == was.benchmark
    && c.npcClassification == was.npcClassification && c.longName == was.longName && c.shortName == was.shortName
    && c.effectiveFrom == was.effectiveFrom && c.change == was.change
  }

  /** A retirement ends at the staged end date, or else at the staged start; a successor starts where its target ends. */
  predicate EndsOn(row: Staged, date: Date) {
    if row.action.Delete? && row.values.effectiveUntil.Some? then row.values.effectiveUntil == Some(date)
    else date == row.values.effectiveFrom
  }

  // ---- One row ----

  /** The account's pattern, its dates, the checks other tables decide, and no other account with this change. */
  ghost predicate Storable(env: Env, live: Live, id: string, row: Staged) {
    && Parse(id).Some?
    && (row.values.effectiveUntil.Some? ==> row.values.effectiveFrom <= row.values.effectiveUntil.value)
    && (forall c | Stores(c, row, env.change) :: env.refs(c))
    && (forall other <- live | other != id :: live[other].change != Some(env.change))
  }

  ghost predicate EndsTooEarly(live: Live, row: Staged)
    requires TargetId(row) in live
  {
    exists date :: EndsOn(row, date) && date < live[TargetId(row)].effectiveFrom
  }

  /** A statement of the row fails, which no later one can mend. */
  ghost predicate Aborts(env: Env, live: Live, row: Staged) {
    var own, target := DerivedId(row), TargetId(row);
    match row.action
    case Create => !Nameless(row) && !ActiveIn(live, own) && (own in live || !Storable(env, live, own, row))
    case Update =>
      && !Nameless(row) && ActiveIn(live, target)
      && (!Storable(env, live, own, row) || (own != target && (own in live || EndsTooEarly(live, row))))
    case Delete => ActiveIn(live, target) && EndsTooEarly(live, row)
    case Unknown => false
  }

  /** What the row is reported as. */
  predicate Reports(live: Live, row: Staged, o: Outcome) {
    && o.action == row.action
    && if Nameless(row) && !row.action.Delete? then o.account == "<unknown>" && o.status == Failed
       else match row.action
         case Create => o.account == DerivedId(row) && o.status == if ActiveIn(live, DerivedId(row)) then Skipped else Applied
         case Update =>
           if ActiveIn(live, TargetId(row)) then o.account == DerivedId(row) && o.status == Applied
           else o.account == TargetId(row) && o.status == Failed
         case Delete => o.account == TargetId(row) && o.status == if ActiveIn(live, TargetId(row)) then Applied else Skipped
         case Unknown => o.account == DerivedId(row) && o.status == Failed
  }

  /** The row was applied as a CREATE or UPDATE of this account. */
  predicate Writes(row: Staged, o: Outcome, id: string) {
    o.status == Applied && (row.action.Create? || row.action.Update?) && o.account == id
  }

  /** The row was applied as the retirement of this account, or as an UPDATE that moved it to another one. */
  predicate Closes(row: Staged, o: Outcome, id: string) {
    o.status == Applied && TargetId(row) == id && (row.action.Delete? || (row.action.Update? && o.account != id))
  }

  predicate Concerns(row: Staged, o: Outcome, id: string) {
    Writes(row, o, id) || Closes(row, o, id)
  }

  /** What the row leaves: a written account holds what is staged, a closed one what it held, and the others are as before. */
  ghost predicate Settles(env: Env, live: Live, row: Staged, next: Live, o: Outcome) {
    forall id ::
      if Writes(row, o, id) then id in next && Stores(next[id], row, env.change)
      else if Closes(row, o, id) then
        id in live && live[id].active && id in next && exists date :: EndsOn(row, date) && EndedAt(next[id], live[id], date)
      else SameRow(live, next, id)
  }

  lemma StorableIsAllowed(env: Env, live: Live, id: string, row: Staged)
    ensures RowAllowed(env, live, id, Written(env, row)) <==> Storable(env, live, id, row)
  {
    hide Parse;
    assert forall c :: Stores(c, row, env.change) <==> c == Written(env, row);
    hide Stores;
  }

  lemma ClosingAllowsAsMuch(env: Env, live: Live, target: string, date: Date, id: string, row: Config)
    requires target in live && id != target
    ensures RowAllowed(env, live[target := Closed(live[target], date)], id, row) <==> RowAllowed(env, live, id, row)
  {
    hide Parse, DatesOk;
    var retired := live[target := Closed(live[target], date)];
    assert forall other <- live :: other in retired && retired[other].change == live[other].change;
    assert retired.Keys == live.Keys;
  }

  function EndDate(row: Staged): Date {
    if row.action.Delete? then RetirementDate(row) else row.values.effectiveFrom
  }

  lemma EndsTooEarlyIff(live: Live, row: Staged)
    requires TargetId(row) in live
    ensures EndsTooEarly(live, row) <==> !DatesOk(Closed(live[TargetId(row)], EndDate(row)))
  {
    hide TargetId;
    assert EndsOn(row, EndDate(row));
  }

  lemma CreateAbortsIff(env: Env, live: Live, row: Staged)
    requires row.action.Create?
    ensures ApplyRow(env, live, row).None? <==> Aborts(env, live, row)
  {
    AccountsOfRow(row);
    StorableIsAllowed(env, live, DerivedId(row), row);
    hide DerivedId, Nameless, RowAllowed, Storable, Written;
  }

  lemma UpdateInPlaceAbortsIff(env: Env, live: Live, row: Staged)
    requires row.action.Update? && DerivedId(row) == TargetId(row)
    ensures ApplyRow(env, live, row).None? <==> Aborts(env, live, row)
  {
    AccountsOfRow(row);
    StorableIsAllowed(env, live, DerivedId(row), row);
    hide DerivedId, TargetId, Nameless, RowAllowed, Storable, DatesOk, Closed, EndsTooEarly, Written;
  }

  lemma UpdateElsewhereAbortsIff(env: Env, live: Live, row: Staged)
    requires row.action.Update? && DerivedId(row) != TargetId(row) && DerivedId(row) != "" && ActiveIn(live, TargetId(row))
    ensures ApplyRow(env, live, row).None? <==> Aborts(env, live, row)
  {
    var derived, target := DerivedId(row), TargetId(row);
    AccountsOfRow(row);
    StorableIsAllowed(env, live, derived, row);
    EndsTooEarlyIff(live, row);
    ClosingAllowsAsMuch(env, live, target, row.values.effectiveFrom, derived, Written(env, row));
    hide DerivedId, TargetId, Nameless, RowAllowed, Storable, DatesOk, Closed, EndsTooEarly, Written;
  }

  lemma UpdateAbortsIff(env: Env, live: Live, row: Staged)
    requires row.action.Update?
    ensures ApplyRow(env, live, row).None? <==> Aborts(env, live, row)
  {
    AccountsOfRow(row);
    hide DerivedId, TargetId, Nameless, RowAllowed, Storable, DatesOk, Closed, EndsTooEarly, Written;
    if DerivedId(row) == TargetId(row) {
      UpdateInPlaceAbortsIff(env, live, row);
    } else if DerivedId(row) != "" && ActiveIn(live, TargetId(row)) {
      UpdateElsewhereAbortsIff(env, live, row);
    }
  }

  lemma DeleteAbortsIff(env: Env, live: Live, row: Staged)
    requires row.action.Delete?
    ensures ApplyRow(env, live, row).None? <==> Aborts(env, live, row)
  {
    if TargetId(row) in live { EndsTooEarlyIff(live, row); }
    hide DerivedId, TargetId, DatesOk, Closed, EndsTooEarly, RetirementDate;
  }

  /** A row aborts in exactly these cases. */
  lemma RowAbortsIff(env: Env, live: Live, row: Staged)
    ensures ApplyRow(env, live, row).None? <==> Aborts(env, live, row)
  {
    match row.action
    case Create => CreateAbortsIff(env, live, row);
    case Update => UpdateAbortsIff(env, live, row);
    case Delete => DeleteAbortsIff(env, live, row);
    case Unknown =>
  }

  lemma RowReports(env: Env, live: Live, row: Staged)
    requires ApplyRow(env, live, row).Some?
    ensures Reports(live, row, ApplyRow(env, live, row).value.1)
  {
    AccountsOfRow(row);
    hide DerivedId, TargetId, Nameless, RowAllowed, DatesOk, Written, Closed;
  }

  lemma RowWrites(env: Env, live: Live, row: Staged, id: string)
    requires ApplyRow(env, live, row).Some? && Writes(row, ApplyRow(env, live, row).value.1, id)
    ensures var next := ApplyRow(env, live, row).value.0; id in next && Stores(next[id], row, env.change)
  {
    hide DerivedId, TargetId, RowAllowed, DatesOk, Closed;
  }

  lemma RowCloses(env: Env, live: Live, row: Staged, id: string)
    requires ApplyRow(env, live, row).Some? && Closes(row, ApplyRow(env, live, row).value.1, id)
    ensures var next := ApplyRow(env, live, row).value.0;
            id in live && live[id].active && id in next && next[id] == Closed(live[id], EndDate(row))
  {
    AccountsOfRow(row);
    hide DerivedId, TargetId, Nameless, RowAllowed, DatesOk, Written, Closed, RetirementDate;
  }

  lemma ClosedIsEnded(row: Staged, was: Config)
    ensures exists date :: EndsOn(row, date) && EndedAt(Closed(was, EndDate(row)), was, date)
  {
    assert EndsOn(row, EndDate(row));
  }

  lemma RowSpares(env: Env, live: Live, row: Staged, id: string)
    requires ApplyRow(env, live, row).Some? && !Concerns(row, ApplyRow(env, live, row).value.1, id)
    ensures SameRow(live, ApplyRow(env, live, row).value.0, id)
  {
    hide DerivedId, TargetId, RowAllowed, DatesOk, Written, Closed;
  }

  /** A row that does not abort is reported and leaves the accounts as said. */
  lemma RowSettles(env: Env, live: Live, row: Staged)
    requires ApplyRow(env, live, row).Some?
    ensures var (next, o) := ApplyRow(env, live, row).value;
            Reports(live, row, o) && Settles(env, live, row, next, o)
  {
    hide ApplyRow, Reports, Writes, Closes, Stores, EndedAt, EndsOn, SameRow, TargetId, Closed, EndDate;
    var (next, o) := ApplyRow(env, live, row).value;
    RowReports(env, live, row);
    forall id
      ensures if Writes(row, o, id) then id in next && Stores(next[id], row, env.change)
              else if Closes(row, o, id) then
                id in live && live[id].active && id in next && exists date :: EndsOn(row, date) && EndedAt(next[id], live[id], date)
              else SameRow(live, next, id)
    {
      if Writes(row, o, id) {
        RowWrites(env, live, row, id);
      } else if Closes(row, o, id) {
        RowCloses(env, live, row, id);
        ClosedIsEnded(row, live[id]);
      } else {
        RowSpares(env, live, row, id);
      }
    }
  }

  // ---- A run ----

  /** The run reaches its k-th row, which aborts. */
  ghost predicate AbortsAt(env: Env, live: Live, rows: seq<Staged>, k: int) {
    && 0 <= k < |rows| && ApplyRows(env, live, rows[..k]).Some?
    && Aborts(env, ApplyRows(env, live, rows[..k]).value.0, rows[k])
  }

  lemma AbortsAtIff(env: Env, live: Live, rows: seq<Staged>, k: nat)
    requires k < |rows|
    ensures AbortsAt(env, live, rows, k) <==> ApplyRows(env, live, rows[..k]).Some? && ApplyRows(env, live, rows[..k + 1]).None?
  {
    hide ApplyRow, ApplyRows, Aborts;
    assert rows[..k + 1] == rows[..k] + [rows[k]];
    RunOneMore(env, live, rows[..k], rows[k]);
    if ApplyRows(env, live, rows[..k]).Some? {
      RowAbortsIff(env, ApplyRows(env, live, rows[..k]).value.0, rows[k]);
    }
  }

  lemma {:induction false} FirstAbort(env: Env, live: Live, rows: seq<Staged>, n: nat) returns (k: nat)
    requires n <= |rows| && ApplyRows(env, live, rows[..n]).None?
    ensures k < n && AbortsAt(env, live, rows, k)
  {
    hide ApplyRow, AbortsAt;
    assert rows[..0] == [];
    if n > 0 {
      hide ApplyRows;
      AbortsAtIff(env, live, rows, n - 1);
      if ApplyRows(env, live, rows[..n - 1]).Some? {
        k := n - 1;
      } else {
        k := FirstAbort(env, live, rows, n - 1);
      }
    }
  }

  /** A run aborts if and only if it comes to a row that aborts. */
  lemma RunAbortsIff(env: Env, live: Live, rows: seq<Staged>)
    ensures ApplyRows(env, live, rows).None? <==> exists k :: AbortsAt(env, live, rows, k)
  {
    hide ApplyRows, AbortsAt;
    assert rows[..|rows|] == rows;
    if ApplyRows(env, live, rows).None? {
      var k := FirstAbort(env, live, rows, |rows|);
    } else {
      forall k ensures !AbortsAt(env, live, rows, k) {
        NoAbort(env, live, rows, k);
      }
    }
  }

  lemma NoAbort(env: Env, live: Live, rows: seq<Staged>, k: int)
    requires ApplyRows(env, live, rows).Some?
    ensures !AbortsAt(env, live, rows, k)
  {
    hide ApplyRows, Aborts;
    if 0 <= k < |rows| {
      RunSplits(env, live, rows, k + 1);
      AbortsAtIff(env, live, rows, k);
    }
  }

  /** No applied row of the run from the k-th on is about the account. */
  predicate SparedFrom(rows: seq<Staged>, outcomes: seq<Outcome>, k: int, id: string)
    requires |rows| == |outcomes| && 0 <= k
  {
    forall j | k <= j < |rows| :: !Concerns(rows[j], outcomes[j], id)
  }

  /** Without any such row the account is as it was before the run. */
  lemma {:induction false} SparedAccountIsLeft(env: Env, live: Live, rows: seq<Staged>, id: string)
    requires ApplyRows(env, live, rows).Some? && SparedFrom(rows, ApplyRows(env, live, rows).value.1, 0, id)
    ensures SameRow(live, ApplyRows(env, live, rows).value.0, id)
    decreases |rows|
  {
    hide ApplyRow, Concerns;
    if rows != [] {
      var (next, o) := ApplyRow(env, live, rows[0]).value;
      var rest := ApplyRows(env, next, rows[1..]).value.1;
      var outcomes := [o] + rest;
      assert ApplyRows(env, live, rows).value.1 == outcomes && outcomes[0] == o;
      RowSpares(env, live, rows[0], id);
      forall j | 0 <= j < |rows[1..]| ensures !Concerns(rows[1..][j], rest[j], id) {
        assert rows[j + 1] == rows[1..][j] && outcomes[j + 1] == rest[j];
      }
      SparedAccountIsLeft(env, next, rows[1..], id);
    }
  }

  lemma SparedAfter(env: Env, live: Live, rows: seq<Staged>, k: nat, id: string) returns (before: Live, after: Live)
    requires k < |rows| && ApplyRows(env, live, rows).Some?
    requires SparedFrom(rows, ApplyRows(env, live, rows).value.1, k + 1, id)
    ensures ApplyRows(env, live, rows[..k]).Some? && before == ApplyRows(env, live, rows[..k]).value.0
    ensures ApplyRow(env, before, rows[k]) == Some((after, ApplyRows(env, live, rows).value.1[k]))
    ensures SameRow(after, ApplyRows(env, live, rows).value.0, id)
  {
    hide ApplyRow, ApplyRows, Concerns;
    before, after := RunAt(env, live, rows, k);
    RunSplits(env, live, rows, k + 1);
    assert rows[..k + 1] == rows[..k] + [rows[k]];
    RunOneMore(env, live, rows[..k], rows[k]);
    var outcomes := ApplyRows(env, live, rows).value.1;
    assert ApplyRows(env, after, rows[k + 1..]).value.1 == outcomes[k + 1..];
    var later, theirs := rows[k + 1..], outcomes[k + 1..];
    forall j | 0 <= j < |later| ensures !Concerns(later[j], theirs[j], id) {
      assert rows[k + 1 + j] == later[j] && outcomes[k + 1 + j] == theirs[j];
    }
    SparedAccountIsLeft(env, after, later, id);
  }

  /**
   After a committed run an account holds, column by column and under the change's id, what the
   last CREATE or UPDATE applied to it staged, unless a later row closed it.
   */
  lemma AccountHoldsWhatWasStaged(env: Env, live: Live, rows: seq<Staged>, k: nat)
    requires k < |rows| && ApplyRows(env, live, rows).Some?
    requires var outcomes := ApplyRows(env, live, rows).value.1;
             && (rows[k].action.Create? || rows[k].action.Update?) && outcomes[k].status == Applied
             && SparedFrom(rows, outcomes, k + 1, outcomes[k].account)
    ensures var (last, outcomes) := ApplyRows(env, live, rows).value;
            && outcomes[k].account in last && Stores(last[outcomes[k].account], rows[k], env.change)
            && Validate(outcomes[k].account, rows[k].values.codes)
  {
    hide ApplyRow, ApplyRows, Stores, Closes, SparedFrom, Validate;
    var id := ApplyRows(env, live, rows).value.1[k].account;
    var before, after := SparedAfter(env, live, rows, k, id);
    RowSettles(env, before, rows[k]);
    AccountsOfRow(rows[k]);
    assert Writes(rows[k], ApplyRows(env, live, rows).value.1[k], id);
  }

  /**
   An account that a row closed holds everything it held just before that row, but that it is
   inactive and ended: at its staged end date or else start for a DELETE, at the start of its
   successor for an UPDATE.
   */
  lemma ClosedAccountHoldsTheRest(env: Env, live: Live, rows: seq<Staged>, k: nat, id: string)
    requires k < |rows| && ApplyRows(env, live, rows).Some?
    requires Closes(rows[k], ApplyRows(env, live, rows).value.1[k], id)
    ensures ApplyRows(env, live, rows[..k]).Some?
    ensures var before, last := ApplyRows(env, live, rows[..k]).value.0, ApplyRows(env, live, rows).value.0;
            && id in before && before[id].active && id in last
            && exists date :: EndsOn(rows[k], date) && EndedAt(last[id], before[id], date)
  {
    hide ApplyRow, ApplyRows, EndsOn;
    var outcomes := ApplyRows(env, live, rows).value.1;
    assert !Writes(rows[k], outcomes[k], id);
    hide Closes, Writes;
    var before, after := RunAt(env, live, rows, k);
    RowSettles(env, before, rows[k]);
    RunExtends(env, after, rows[k + 1..]);
  }

  /** Each row is reported by where the run stands when it comes to it. */
  lemma RunReports(env: Env, live: Live, rows: seq<Staged>, k: nat)
    requires k < |rows| && ApplyRows(env, live, rows).Some?
    ensures ApplyRows(env, live, rows[..k]).Some?
    ensures Reports(ApplyRows(env, live, rows[..k]).value.0, rows[k], ApplyRows(env, live, rows).value.1[k])
  {
    hide ApplyRow, ApplyRows, Reports;
    var before, after := RunAt(env, live, rows, k);
    RowSettles(env, before, rows[k]);
  }

  /** The stored status of a staged row is the one reported for the last row with its id; others keep theirs. */
  lemma {:induction false} StatusesAreRecorded(statuses: map<nat, Status>, rows: seq<Staged>, outcomes: seq<Outcome>, id: nat, k: int)
    requires |rows| == |outcomes| && -1 <= k < |rows| && (k >= 0 ==> rows[k].id == id)
    requires forall j | k < j < |rows| :: rows[j].id != id
    ensures var stored := Recorded(statuses, rows, outcomes);
            if k >= 0 then id in stored && stored[id] == outcomes[k].status
            else (id in stored <==> id in statuses) && (id in stored ==> stored[id] == statuses[id])
    decreases |rows|
  {
    if rows != [] {
      var now := statuses[rows[0].id := outcomes[0].status];
      StatusesAreRecorded(now, rows[1..], outcomes[1..], id, if k > 0 then k - 1 else -1);
    }
  }
}
