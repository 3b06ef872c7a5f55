/**
 Applying the staged portfolio configurations of a change request (lib/client-config-db.ts)
 under the live table's constraints (db/clientconfig_schema.sql).

 One row at a time is specified by `ApplyRow`: it settles with a new live table and an
 outcome, or some statement of it fails. A failed statement poisons the transaction, so a
 run is a fold of rows that stops at the first one that does not settle.
 */
module ConfigApply {
  import opened PrimaryAccountId
  import opened Wrappers

  type Date = int
  type ChangeId = nat

  datatype Config = Config(
    codes: Codes, portfolio: string, benchmark: string, npcClassification: int, longName: string, shortName: string,
    active: bool, effectiveFrom: Date, effectiveUntil: Option<Date>, change: Option<ChangeId>)

  /** portfolio_configuration, by primary_account_id */
  type Live = map<string, Config>

  datatype Action = Create | Update | Delete | Unknown

  datatype Staged = Staged(id: nat, action: Action, target: Option<string>, values: Config)

  datatype Status = Applied | Skipped | Failed

  datatype Outcome = Outcome(action: Action, account: string, status: Status)

  /** The change being applied, and whether a row meets the checks and foreign keys that other tables decide. */
  datatype Env = Env(change: ChangeId, refs: Config -> bool)

  function DerivedId(row: Staged): string {
    match Build(row.values.codes) case Some(id) => id case None => ""
  }

  function TargetId(row: Staged): string {
    match row.target case Some(id) => id case None => DerivedId(row)
  }

  /** The live row a CREATE or UPDATE writes: the staged values under the change's own id. */
  function Written(env: Env, row: Staged): Config {
    row.values.(change := Some(env.change))
  }

  predicate ActiveIn(live: Live, id: string) {
    id in live && live[id].active
  }

  predicate DatesOk(row: Config) {
    row.effectiveUntil.Some? ==> row.effectiveUntil.value >= row.effectiveFrom
  }

  /** Column checks, foreign keys, and the UNIQUE change_request_id, for writing `row` under `id`. */
  predicate RowAllowed(env: Env, live: Live, id: string, row: Config) {
    && Parse(id).Some? && env.refs(row) && DatesOk(row)
    && (row.change.Some? ==> forall other <- live | other != id :: live[other].change != row.change)
  }

  function Closed(row: Config, date: Date): Config {
    row.(active := false, effectiveUntil := Some(date))
  }

  function RetirementDate(row: Staged): Date {
    match row.values.effectiveUntil case Some(d) => d case None => row.values.effectiveFrom
  }

  /** One staged row against the live table; None when one of its statements fails. */
  function ApplyRow(env: Env, live: Live, row: Staged): Option<(Live, Outcome)> {
    var derived, target, written := DerivedId(row), TargetId(row), Written(env, row);
    if derived == "" && !row.action.Delete? then Some((live, Outcome(row.action, "<unknown>", Failed)))
    else match row.action
      case Create =>
        if ActiveIn(live, derived) then Some((live, Outcome(Create, derived, Skipped)))
        else if derived in live || !RowAllowed(env, live, derived, written) then None
        else Some((live[derived := written], Outcome(Create, derived, Applied)))
      case Update =>
        if !ActiveIn(live, target) then Some((live, Outcome(Update, target, Failed)))
        else if derived == target then
          if RowAllowed(env, live, target, written) then Some((live[target := written], Outcome(Update, derived, Applied))) else None
        else
          var closed := Closed(live[target], row.values.effectiveFrom);
          var retired := live[target := closed];
          if !DatesOk(closed) || derived in retired || !RowAllowed(env, retired, derived, written) then None
          else Some((retired[derived := written], Outcome(Update, derived, Applied)))
      case Delete =>
        if !ActiveIn(live, target) then Some((live, Outcome(Delete, target, Skipped)))
        else
          var closed := Closed(live[target], RetirementDate(row));
          if DatesOk(closed) then Some((live[target := closed], Outcome(Delete, target, Applied))) else None
      case Unknown => Some((live, Outcome(Unknown, derived, Failed)))
  }

  /** The run: rows in order, each on what the previous ones left; None when some row does not settle. */
  function ApplyRows(env: Env, live: Live, rows: seq<Staged>): (r: Option<(Live, seq<Outcome>)>)
    ensures r.Some? ==> |r.value.1| == |rows|
    decreases |rows|
  {
    if rows == [] then Some((live, []))
    else
      match ApplyRow(env, live, rows[0])
      case None => None
      case Some((next, outcome)) =>
        match ApplyRows(env, next, rows[1..])
        case None => None
        case Some((last, outcomes)) => Some((last, [outcome] + outcomes))
  }

  /** The statuses a committed run stores on its staged rows. */
  function Recorded(statuses: map<nat, Status>, rows: seq<Staged>, outcomes: seq<Outcome>): map<nat, Status>
    requires |rows| == |outcomes|
    decreases |rows|
  {
    if rows == [] then statuses
    else Recorded(statuses[rows[0].id := outcomes[0].status], rows[1..], outcomes[1..])
  }

  predicate NoneFailed(outcomes: seq<Outcome>) {
    forall o <- outcomes :: o.status != Failed
  }

  lemma {:induction false} RunOneMore(env: Env, live: Live, rows: seq<Staged>, row: Staged)
    ensures ApplyRows(env, live, rows + [row])
            == match ApplyRows(env, live, rows)
               case None => None
               case Some((next, outcomes)) =>
                 match ApplyRow(env, next, row)
                 case None => None
                 case Some((last, outcome)) => Some((last, outcomes + [outcome]))
    decreases |rows|
  {
    hide ApplyRow;
    if rows == [] {
      assert rows + [row] == [row];
      assert ApplyRow(env, live, row).Some? ==>
          ApplyRows(env, ApplyRow(env, live, row).value.0, [row][1..]) == Some((ApplyRow(env, live, row).value.0, []));
      assert forall o: Outcome :: [o] + [] == [] + [o];
    } else {
      assert (rows + [row])[0] == rows[0] && (rows + [row])[1..] == rows[1..] + [row];
      if ApplyRow(env, live, rows[0]).Some? {
        var (next, outcome) := ApplyRow(env, live, rows[0]).value;
        RunOneMore(env, next, rows[1..], row);
        if ApplyRows(env, next, rows[1..]).Some? {
          var (last, outcomes) := ApplyRows(env, next, rows[1..]).value;
          if ApplyRow(env, last, row).Some? {
            var final := ApplyRow(env, last, row).value.1;
            assert [outcome] + (outcomes + [final]) == ([outcome] + outcomes) + [final];
          }
        }
      }
    }
  }

  /** A row that does not settle stops the run for good. */
  lemma {:induction false} PrefixDecides(env: Env, live: Live, rows: seq<Staged>, k: nat)
    requires k <= |rows| && ApplyRows(env, live, rows[..k]).None?
    ensures ApplyRows(env, live, rows).None?
    decreases |rows| - k
  {
    hide ApplyRow, ApplyRows;
    if k == |rows| {
      assert rows[..k] == rows;
    } else {
      assert rows[..k + 1] == rows[..k] + [rows[k]];
      RunOneMore(env, live, rows[..k], rows[k]);
      PrefixDecides(env, live, rows, k + 1);
    }
  }

  lemma {:induction false} RecordedOneMore(statuses: map<nat, Status>, rows: seq<Staged>, outcomes: seq<Outcome>,
                                                row: Staged, outcome: Outcome)
    requires |rows| == |outcomes|
    ensures Recorded(statuses, rows + [row], outcomes + [outcome]) == Recorded(statuses, rows, outcomes)[row.id := outcome.status]
    decreases |rows|
  {
    if rows == [] {
      assert rows + [row] == [row] && outcomes + [outcome] == [outcome];
      assert Recorded(statuses[row.id := outcome.status], [row][1..], [outcome][1..]) == statuses[row.id := outcome.status];
    } else {
      assert (rows + [row])[1..] == rows[1..] + [row] && (outcomes + [outcome])[1..] == outcomes[1..] + [outcome];
      RecordedOneMore(statuses[rows[0].id := outcomes[0].status], rows[1..], outcomes[1..], row, outcome);
    }
  }

  // ---- The transaction, statement by statement ----

  /** An open transaction. A statement on a poisoned transaction fails; a failing statement poisons it. */
  class Transaction {
    var live: Live
    var statuses: map<nat, Status>
    var poisoned: bool

    constructor (live: Live, statuses: map<nat, Status>)
      ensures this.live == live && this.statuses == statuses && !poisoned
    {
      this.live, this.statuses, poisoned := live, statuses, false;
    }

    /** SELECT 1 ... WHERE primary_account_id = id AND active_ind = true */
    method SelectActive(id: string) returns (ok: bool, found: bool)
      ensures ok == !poisoned && (ok ==> found == ActiveIn(live, id))
    {
      ok, found := !poisoned, ActiveIn(live, id);
    }

    method Insert(env: Env, id: string, row: Config) returns (ok: bool)
      modifies this
      ensures ok == (!old(poisoned) && id !in old(live) && RowAllowed(env, old(live), id, row))
      ensures poisoned == !ok && statuses == old(statuses)
      ensures live == if ok then old(live)[id := row] else old(live)
    {
      ok := !poisoned && id !in live && RowAllowed(env, live, id, row);
      if ok { live := live[id := row]; }
      poisoned := !ok;
    }

    /** UPDATE ... SET every column WHERE primary_account_id = id AND active_ind = true */
    method UpdateActive(env: Env, id: string, row: Config) returns (ok: bool)
      modifies this
      ensures ok == (!old(poisoned) && (ActiveIn(old(live), id) ==> RowAllowed(env, old(live), id, row)))
      ensures poisoned == !ok && statuses == old(statuses)
      ensures live == if ok && ActiveIn(old(live), id) then old(live)[id := row] else old(live)
    {
      ok := !poisoned && (ActiveIn(live, id) ==> RowAllowed(env, live, id, row));
      if ok && ActiveIn(live, id) { live := live[id := row]; }
      poisoned := !ok;
    }

    /** UPDATE ... SET active_ind = false, effective_until = date WHERE primary_account_id = id AND active_ind = true */
    method CloseActive(id: string, date: Date) returns (ok: bool)
      modifies this
      ensures ok == (!old(poisoned) && (ActiveIn(old(live), id) ==> DatesOk(Closed(old(live)[id], date))))
      ensures poisoned == !ok && statuses == old(statuses)
      ensures live == if ok && ActiveIn(old(live), id) then old(live)[id := Closed(old(live)[id], date)] else old(live)
    {
      ok := !poisoned && (ActiveIn(live, id) ==> DatesOk(Closed(live[id], date)));
      if ok && ActiveIn(live, id) { live := live[id := Closed(live[id], date)]; }
      poisoned := !ok;
    }

    /** UPDATE change_portfolio_configuration SET apply_status = status WHERE id = id */
    method Mark(id: nat, status: Status) returns (ok: bool)
      modifies this
      ensures ok == !old(poisoned) && poisoned == old(poisoned) && live == old(live)
      ensures statuses == if ok then old(statuses)[id := status] else old(statuses)
    {
      ok := !poisoned;
      if ok { statuses := statuses[id := status]; }
    }

    /** What the row was specified to do, it did; or a statement threw and the transaction is poisoned. */
    twostate predicate Settled(env: Env, row: Staged, ok: bool, outcome: Outcome)
      reads this
    {
      var spec := ApplyRow(env, old(live), row);
      if old(poisoned) || spec.None? then !ok && poisoned
      else
        && ok && !poisoned && outcome == spec.value.1
        && live == spec.value.0 && statuses == old(statuses)[row.id := outcome.status]
    }

    method TryCreate(env: Env, row: Staged) returns (ok: bool, outcome: Outcome)
      requires row.action.Create? && DerivedId(row) != ""
      modifies this
      ensures Settled(env, row, ok, outcome)
    {
      var found;
      var derived := DerivedId(row);
      outcome := Outcome(Create, derived, Applied);
      ok, found := SelectActive(derived);
      if !ok { return; }
      if found {
        ok := Mark(row.id, Skipped);
        outcome := Outcome(Create, derived, Skipped);
        return;
      }
      ok := Insert(env, derived, Written(env, row));
      if !ok { return; }
      ok := Mark(row.id, Applied);
    }

    method TryUpdate(env: Env, row: Staged) returns (ok: bool, outcome: Outcome)
      requires row.action.Update? && DerivedId(row) != ""
      modifies this
      ensures Settled(env, row, ok, outcome)
    {
      var found;
      var derived, target := DerivedId(row), TargetId(row);
      outcome := Outcome(Update, derived, Applied);
      ok, found := SelectActive(target);
      if !ok { return; }
      if !found {
        ok := Mark(row.id, Failed);
        outcome := Outcome(Update, target, Failed);
        return;
      }
      if derived == target {
        ok := UpdateActive(env, target, Written(env, row));
        if !ok { return; }
      } else {
        ok := CloseActive(target, row.values.effectiveFrom);
        if !ok { return; }
        ok := Insert(env, derived, Written(env, row));
        if !ok { return; }
      }
      ok := Mark(row.id, Applied);
    }

    method TryDelete(env: Env, row: Staged) returns (ok: bool, outcome: Outcome)
      requires row.action.Delete?
      modifies this
      ensures Settled(env, row, ok, outcome)
    {
      var found;
      var target := TargetId(row);
      outcome := Outcome(Delete, target, Applied);
      ok, found := SelectActive(target);
      if !ok { return; }
      if !found {
        ok := Mark(row.id, Skipped);
        outcome := Outcome(Delete, target, Skipped);
        return;
      }
      ok := CloseActive(target, RetirementDate(row));
      if !ok { return; }
      ok := Mark(row.id, Applied);
    }

    /** The body of the loop: `ok` is false when a statement threw, inside or outside the row's try block. */
    method ProcessRow(env: Env, row: Staged) returns (ok: bool, thrown: bool, outcome: Outcome)
      modifies this
      ensures Settled(env, row, ok, outcome)
      ensures thrown ==> !ok
      ensures !ok && !thrown ==> outcome.status == Failed
    {
      thrown := false;
      if DerivedId(row) == "" && !row.action.Delete? {
        ok := Mark(row.id, Failed);
        outcome, thrown := Outcome(row.action, "<unknown>", Failed), !ok;
        return;
      }
      match row.action {
        case Create => ok, outcome := TryCreate(env, row);
        case Update => ok, outcome := TryUpdate(env, row);
        case Delete => ok, outcome := TryDelete(env, row);
        case Unknown =>
          ok := Mark(row.id, Failed);
          outcome := Outcome(Unknown, DerivedId(row), Failed);
      }
      if !ok {
        var marked := Mark(row.id, Failed);
        outcome := Outcome(row.action, TargetId(row), Failed);
      }
    }
  }

  /** The live and staging tables between transactions. */
  class ConfigStore {
    var live: Live
    var statuses: map<nat, Status>

    constructor (live: Live, statuses: map<nat, Status>)
      ensures this.live == live && this.statuses == statuses
    {
      this.live, this.statuses := live, statuses;
    }

    /**
     applyChangePortfolioConfigurations over the change's staged rows. The run commits
     exactly when every row settles; otherwise both tables are as they were, and the call
     does not report success.
     */
    method ApplyChange(env: Env, rows: seq<Staged>) returns (committed: bool, success: bool, applied: seq<Outcome>)
      modifies this
      ensures committed == ApplyRows(env, old(live), rows).Some?
      ensures committed ==>
                && live == ApplyRows(env, old(live), rows).value.0
                && applied == ApplyRows(env, old(live), rows).value.1
                && statuses == Recorded(old(statuses), rows, applied)
                && success == forall o <- applied :: o.status != Failed
      ensures !committed ==> live == old(live) && statuses == old(statuses) && !success
    {
      hide ApplyRow;
      var tx := new Transaction(live, statuses);
      applied := [];
      for k := 0 to |rows|
        invariant |applied| == k
        invariant live == old(live) && statuses == old(statuses)
        invariant !tx.poisoned ==>
                    && ApplyRows(env, live, rows[..k]) == Some((tx.live, applied))
                    && tx.statuses == Recorded(statuses, rows[..k], applied)
        invariant tx.poisoned ==> ApplyRows(env, live, rows[..k]).None? && !NoneFailed(applied)
      {
        assert rows[..k + 1] == rows[..k] + [rows[k]];
        RunOneMore(env, live, rows[..k], rows[k]);
        ghost var before := applied;
        var ok, thrown, outcome := tx.ProcessRow(env, rows[k]);
        if thrown {
          PrefixDecides(env, live, rows, k + 1);
          return false, false, applied;
        }
        applied := applied + [outcome];
        if ok {
          RecordedOneMore(statuses, rows[..k], before, rows[k], outcome);
        } else {
          assert applied[k] == outcome && outcome in applied;
        }
      }
      assert rows[..|rows|] == rows;
      if tx.poisoned {
        return false, false, applied;
      }
      live, statuses := tx.live, tx.statuses;
      committed, success := true, NoneFailed(applied);
    }
  }
}
