/**
 Onboarding a new client through a staging row (lib/onboarding-staging-db.ts): save, apply
 and delete on the staging table under UNIQUE (change_request_id) and UNIQUE (client_code,
 status), and the one transaction that writes the live tables. Parent accounts are named
 by their unique code.
 */
module Onboarding {
  import opened PrimaryAccountId
  import opened Text
  import opened Wrappers

  type ChangeId = nat
  type StagingId = nat

  datatype Status = Pending | Applied | Failed

  datatype Form = Form(clientName: string, portfolio: string, parent: Option<string>, codes: Codes, details: string)

  datatype Row = Row(change: ChangeId, form: Form, status: Status) {
    function Client(): string { form.codes.client }
  }

  datatype Portfolio = Portfolio(parent: Option<string>, active: bool)
  datatype Configuration = Configuration(form: Form, change: ChangeId)

  datatype Live = Live(
    clients: map<string, string>,
    parents: map<string, bool>,
    portfolios: map<string, Portfolio>,
    configurations: map<string, Configuration>)

  datatype Db = Db(staging: map<StagingId, Row>, nextId: StagingId, live: Live)

  // ---- Saving ----

  function NormalForm(f: Form): Form {
    f.(portfolio := Upper(f.portfolio),
       parent := if f.parent.Some? then Some(Upper(f.parent.value)) else None,
       codes := Codes(Upper(f.codes.client), Upper(f.codes.assetClass), Upper(f.codes.subAssetClass), Upper(f.codes.manager)))
  }

  /** uq_onboarding_client_status, as seen by the row `id` about to hold this client and status. */
  predicate StatusTaken(staging: map<StagingId, Row>, id: StagingId, client: string, status: Status) {
    exists other <- staging | other != id :: staging[other].Client() == client && staging[other].status == status
  }

  predicate ChangeStaged(staging: map<StagingId, Row>, change: ChangeId) {
    exists id <- staging :: staging[id].change == change
  }

  /** saveClientOnboardingStaging: refused by validation or by one of the two unique constraints. */
  function Save(db: Db, valid: Form -> bool, change: ChangeId, form: Form): Option<Db> {
    var row := Row(change, NormalForm(form), Pending);
    if !valid(row.form) || ChangeStaged(db.staging, change) || StatusTaken(db.staging, db.nextId, row.Client(), Pending) then None
    else Some(db.(staging := db.staging[db.nextId := row], nextId := db.nextId + 1))
  }

  // ---- Applying ----

  predicate HasParent(f: Form) {
    f.parent.Some? && f.parent.value != ""
  }

  /** The live tables with the whole onboarding in them. */
  function WithOnboarding(live: Live, row: Row): Live {
    var f := row.form;
    Live(
      live.clients[row.Client() := f.clientName],
      if HasParent(f) && !ParentActive(live, f.parent.value) then live.parents[f.parent.value := true] else live.parents,
      live.portfolios[f.portfolio := Portfolio(if HasParent(f) then f.parent else None, true)],
      live.configurations[Generate(f.codes) := Configuration(f, row.change)])
  }

  predicate ParentActive(live: Live, code: string) {
    code in live.parents && live.parents[code]
  }

  /** Every statement of the transaction is allowed; `refs` stands for the lookup tables and text checks. */
  predicate Insertable(live: Live, refs: Form -> bool, row: Row) {
    var f := row.form;
    && (HasParent(f) ==> f.parent.value !in live.parents || live.parents[f.parent.value])
    && row.Client() !in live.clients && (forall c <- live.clients :: live.clients[c] != f.clientName)
    && f.portfolio !in live.portfolios
    && Build(f.codes).Some? && Parse(Generate(f.codes)).Some? && Generate(f.codes) !in live.configurations
    && (forall c <- live.configurations :: live.configurations[c].change != row.change)
    && refs(f)
  }

  function WithStatus(db: Db, id: StagingId, status: Status): Db
    requires id in db.staging
  {
    db.(staging := db.staging[id := db.staging[id].(status := status)])
  }

  /** The transaction: None when it rolls back. A client that is live already is only marked. */
  function Transaction(db: Db, refs: Form -> bool, id: StagingId): Option<Db>
    requires id in db.staging
  {
    var row := db.staging[id];
    if StatusTaken(db.staging, id, row.Client(), Applied) then None
    else if row.Client() in db.live.clients then Some(WithStatus(db, id, Applied))
    else if Insertable(db.live, refs, row) then Some(WithStatus(db.(live := WithOnboarding(db.live, row)), id, Applied))
    else None
  }

  /** After a rollback: mark the row failed, unless another failed row of the client holds that status. */
  function MarkFailed(db: Db, id: StagingId): Db
    requires id in db.staging
  {
    if StatusTaken(db.staging, id, db.staging[id].Client(), Failed) then db else WithStatus(db, id, Failed)
  }

  function ApplyAt(db: Db, refs: Form -> bool, id: StagingId): Db
    requires id in db.staging
  {
    if db.staging[id].status == Applied then db
    else match Transaction(db, refs, id) case Some(next) => next case None => MarkFailed(db, id)
  }

  /** The row of a change, if it is staged. */
  ghost function RowOf(db: Db, change: ChangeId): Option<StagingId> {
    if id :| id in db.staging && db.staging[id].change == change then Some(id) else None
  }

  ghost function Apply(db: Db, refs: Form -> bool, change: ChangeId): Db {
    match RowOf(db, change) case Some(id) => ApplyAt(db, refs, id) case None => db
  }

  function Delete(db: Db, id: StagingId): Db {
    db.(staging := db.staging - {id})
  }

  // ---- What saving and applying are for ----

  /** No other row of the client of row `id` has the status. */
  predicate Alone(staging: map<StagingId, Row>, id: StagingId, client: string, status: Status) {
    forall other <- staging | other != id && staging[other].form.codes.client == client :: staging[other].status != status
  }

  /** Codes are upper-cased; name and details are kept. */
  predicate Normalized(n: Form, f: Form) {
    && n.clientName == f.clientName && n.details == f.details && n.portfolio == Upper(f.portfolio)
    && n.parent.Some? == f.parent.Some? && (f.parent.Some? ==> n.parent.value == Upper(f.parent.value))
    && n.codes.client == Upper(f.codes.client) && n.codes.assetClass == Upper(f.codes.assetClass)
    && n.codes.subAssetClass == Upper(f.codes.subAssetClass) && n.codes.manager == Upper(f.codes.manager)
  }

  /** The form is stored in normal form as a new pending row, if it is valid and neither its change nor its client has one. */
  ghost predicate Saves(before: Db, valid: Form -> bool, change: ChangeId, form: Form, after: Option<Db>) {
    exists n: Form ::
      && Normalized(n, form)
      && (after.Some? <==>
            && valid(n) && (forall id <- before.staging :: before.staging[id].change != change)
            && Alone(before.staging, before.nextId, n.codes.client, Pending))
      && (after.Some? ==>
            && Put(before.staging, after.value.staging, before.nextId, Row(change, n, Pending))
            && after.value.nextId == before.nextId + 1 && after.value.live == before.live)
  }

  lemma SaveSaves(db: Db, valid: Form -> bool, change: ChangeId, form: Form)
    ensures Saves(db, valid, change, form, Save(db, valid, change, form))
  {
    assert Normalized(NormalForm(form), form);
    hide Normalized, NormalForm;
  }

  /** The account spells the codes, and is read back as them when they are well-formed. */
  predicate Names(account: string, codes: Codes) {
    Parse(account).Some? && Validate(account, codes) && (WellFormed(codes) ==> Parse(account) == Some(codes))
  }

  /** Nothing the onboarding is about to add is there yet, but for a parent account, which must be active. */
  ghost predicate MayOnboard(live: Live, refs: Form -> bool, row: Row) {
    var f := row.form;
    && f.codes.client !in live.clients && (forall c <- live.clients :: live.clients[c] != f.clientName)
    && (f.parent.Some? && f.parent.value != "" && f.parent.value in live.parents ==> live.parents[f.parent.value])
    && f.portfolio !in live.portfolios
    && Trim(f.codes.client) != "" && Trim(f.codes.assetClass) != ""
    && Trim(f.codes.subAssetClass) != "" && Trim(f.codes.manager) != ""
    && (exists account :: Names(account, f.codes) && account !in live.configurations)
    && (forall c <- live.configurations :: live.configurations[c].change != row.change)
    && refs(f)
  }

  /**
   The live tables got the client under its name, the portfolio, active and under the parent that
   was asked for, that parent if it was missing, and the configuration under the account that
   spells the four codes; nothing else was added, removed or changed.
   */
  ghost predicate Onboarded(before: Live, after: Live, row: Row) {
    var f := row.form;
    && f.codes.client !in before.clients && Put(before.clients, after.clients, f.codes.client, f.clientName)
    && f.portfolio !in before.portfolios && f.portfolio in after.portfolios && after.portfolios[f.portfolio].active
    && Put(before.portfolios, after.portfolios, f.portfolio, after.portfolios[f.portfolio])
    && (if f.parent.Some? && f.parent.value != "" then
          && after.portfolios[f.portfolio].parent == f.parent
          && Put(before.parents, after.parents, f.parent.value, true)
          && (f.parent.value in before.parents ==> before.parents[f.parent.value])
        else after.portfolios[f.portfolio].parent == None && after.parents == before.parents)
    && exists account ::
         && Names(account, f.codes) && account !in before.configurations
         && Put(before.configurations, after.configurations, account, Configuration(f, row.change))
  }

  lemma OneAccount(codes: Codes, account: string)
    ensures Names(account, codes) ==> account == Generate(codes)
    ensures Parse(Generate(codes)).Some? ==> Names(Generate(codes), codes)
  {
    hide Generate, Parse, WellFormed;
    if Names(account, codes) {
      ParsedIsUpper(account);
    }
    if Parse(Generate(codes)).Some? {
      ParsedIsUpper(Generate(codes));
      if WellFormed(codes) { ParseGenerate(codes); }
    }
  }

  lemma ParsedIsUpper(id: string)
    requires Parse(id).Some?
    ensures Upper(id) == id
  {
    GenerateParse(id);
    UpperIsIdempotent(Joined(Parse(id).value));
    hide Parse, WellFormed, Joined, Upper;
  }

  lemma InsertableIff(live: Live, refs: Form -> bool, row: Row)
    ensures Insertable(live, refs, row) <==> MayOnboard(live, refs, row)
  {
    hide Generate, Parse, Trim, WellFormed, Names;
    forall account ensures Names(account, row.form.codes) ==> account == Generate(row.form.codes) {
      OneAccount(row.form.codes, account);
    }
    OneAccount(row.form.codes, Generate(row.form.codes));
    if MayOnboard(live, refs, row) {
      NamesParse(row.form.codes);
    }
  }

  lemma NamesParse(codes: Codes)
    ensures forall account :: Names(account, codes) ==> Parse(account).Some?
  {
  }

  lemma WithOnboardingOnboards(live: Live, refs: Form -> bool, row: Row)
    requires Insertable(live, refs, row)
    ensures Onboarded(live, WithOnboarding(live, row), row)
  {
    hide Generate, Parse, Trim, WellFormed, Names;
    OneAccount(row.form.codes, Generate(row.form.codes));
  }

  /** When an apply makes the row applied. */
  ghost predicate MayApply(db: Db, refs: Form -> bool, id: StagingId)
    requires id in db.staging
  {
    var row := db.staging[id];
    && Alone(db.staging, id, row.form.codes.client, Applied)
    && (row.form.codes.client in db.live.clients || MayOnboard(db.live, refs, row))
  }

  /**
   An apply marks only its own row: applied, if it may be, and otherwise failed, unless another
   failed row of the client is in the way. The live tables get the whole onboarding or nothing.
   */
  ghost predicate Applies(before: Db, refs: Form -> bool, id: StagingId, after: Db)
    requires id in before.staging
  {
    var row := before.staging[id];
    if row.status == Applied then after == before
    else
      && after.nextId == before.nextId && id in after.staging
      && Put(before.staging, after.staging, id, row.(status := after.staging[id].status))
      && if MayApply(before, refs, id) then
           && after.staging[id].status == Applied
           && if row.form.codes.client in before.live.clients then after.live == before.live
              else Onboarded(before.live, after.live, row)
         else
           && after.staging[id].status == (if Alone(before.staging, id, row.form.codes.client, Failed) then Failed else row.status)
           && after.live == before.live
  }

  lemma AloneIff(staging: map<StagingId, Row>, id: StagingId, client: string, status: Status)
    ensures StatusTaken(staging, id, client, status) <==> !Alone(staging, id, client, status)
  {
  }

  lemma WithStatusPuts(db: Db, id: StagingId, status: Status)
    requires id in db.staging
    ensures var next := WithStatus(db, id, status);
            && Put(db.staging, next.staging, id, db.staging[id].(status := status))
            && next.staging[id].status == status && next.nextId == db.nextId && next.live == db.live
  {
  }

  lemma AppliedApplies(db: Db, refs: Form -> bool, id: StagingId)
    requires id in db.staging && db.staging[id].status != Applied && Transaction(db, refs, id).Some?
    ensures Applies(db, refs, id, ApplyAt(db, refs, id))
  {
    var row := db.staging[id];
    InsertableIff(db.live, refs, row);
    if Insertable(db.live, refs, row) { WithOnboardingOnboards(db.live, refs, row); }
    AloneIff(db.staging, id, row.Client(), Applied);
    WithStatusPuts(db, id, Applied);
    WithStatusPuts(db.(live := WithOnboarding(db.live, row)), id, Applied);
    hide Insertable, MayOnboard, WithOnboarding, Onboarded, StatusTaken, Alone, Put, WithStatus, MarkFailed;
  }

  lemma FailedApplies(db: Db, refs: Form -> bool, id: StagingId)
    requires id in db.staging && db.staging[id].status != Applied && Transaction(db, refs, id).None?
    ensures Applies(db, refs, id, ApplyAt(db, refs, id))
  {
    var row := db.staging[id];
    InsertableIff(db.live, refs, row);
    AloneIff(db.staging, id, row.Client(), Applied);
    AloneIff(db.staging, id, row.Client(), Failed);
    WithStatusPuts(db, id, Failed);
    PutSame(db.staging, id);
    hide Insertable, MayOnboard, WithOnboarding, Onboarded, StatusTaken, Alone, Put, WithStatus;
  }

  /** One apply of a staged row does this. */
  lemma ApplyIsAllOrNothing(db: Db, refs: Form -> bool, id: StagingId)
    requires id in db.staging
    ensures Applies(db, refs, id, ApplyAt(db, refs, id))
  {
    if db.staging[id].status != Applied {
      hide Applies, ApplyAt, Transaction;
      if Transaction(db, refs, id).Some? {
        AppliedApplies(db, refs, id);
      } else {
        FailedApplies(db, refs, id);
      }
    }
  }

  lemma PutSame<K(!new), V(!new)>(m: map<K, V>, key: K)
    requires key in m
    ensures Put(m, m, key, m[key])
  {
  }

  // ---- The store ----

  /** The inserts of the transaction, one after the other, on its own view of the live tables. */
  method InsertOnboarding(live: Live, refs: Form -> bool, row: Row) returns (ok: bool, next: Live)
    requires row.Client() !in live.clients
    ensures ok == Insertable(live, refs, row) == MayOnboard(live, refs, row)
    ensures ok ==> next == WithOnboarding(live, row) && Onboarded(live, next, row)
  {
    InsertableIff(live, refs, row);
    if Insertable(live, refs, row) { WithOnboardingOnboards(live, refs, row); }
    hide Generate, Parse, Trim, MayOnboard, Onboarded;
    var f := row.form;
    next := live;
    if HasParent(f) && !ParentActive(live, f.parent.value) {
      if f.parent.value in live.parents { return false, live; }
      next := next.(parents := next.parents[f.parent.value := true]);
    }
    if exists c <- live.clients :: live.clients[c] == f.clientName { return false, live; }
    next := next.(clients := next.clients[row.Client() := f.clientName]);
    if f.portfolio in live.portfolios { return false, live; }
    next := next.(portfolios := next.portfolios[f.portfolio := Portfolio(if HasParent(f) then f.parent else None, true)]);
    var account := Build(f.codes);
    ok := account.Some? && Parse(account.value).Some? && account.value !in live.configurations
          && (forall c <- live.configurations :: live.configurations[c].change != row.change) && refs(f);
    if ok {
      next := next.(configurations := next.configurations[account.value := Configuration(f, row.change)]);
    }
  }

  class OnboardingStore {
    var staging: map<StagingId, Row>
    var nextId: StagingId
    var clients: map<string, string>
    var parents: map<string, bool>
    var portfolios: map<string, Portfolio>
    var configurations: map<string, Configuration>

    function Tables(): Db
      reads this
    {
      Db(staging, nextId, Live(clients, parents, portfolios, configurations))
    }

    constructor (live: Live)
      ensures Tables() == Db(map[], 0, live)
    {
      staging, nextId := map[], 0;
      clients, parents, portfolios, configurations := live.clients, live.parents, live.portfolios, live.configurations;
    }

    method SaveStaging(valid: Form -> bool, change: ChangeId, form: Form) returns (id: Option<StagingId>)
      modifies this
      ensures id.Some? == Save(old(Tables()), valid, change, form).Some?
      ensures Tables() == if id.Some? then Save(old(Tables()), valid, change, form).value else old(Tables())
      ensures id.Some? ==> id.value == old(nextId)
      ensures Saves(old(Tables()), valid, change, form, if id.Some? then Some(Tables()) else None)
    {
      SaveSaves(Tables(), valid, change, form);
      hide Saves;
      var normalized := NormalForm(form);
      if !valid(normalized) { return None; }
      if ChangeStaged(staging, change) || StatusTaken(staging, nextId, normalized.codes.client, Pending) { return None; }
      staging := staging[nextId := Row(change, normalized, Pending)];
      id, nextId := Some(nextId), nextId + 1;
    }

    /** UPDATE ... SET status WHERE staging_id: refused when another row holds the client and status. */
    method SetStatus(id: StagingId, status: Status) returns (ok: bool)
      requires id in staging
      modifies this
      ensures ok == !StatusTaken(old(staging), id, old(staging)[id].Client(), status)
              == Alone(old(staging), id, old(staging)[id].form.codes.client, status)
      ensures Tables() == if ok then WithStatus(old(Tables()), id, status) else old(Tables())
      ensures ok ==> Put(old(staging), staging, id, old(staging)[id].(status := status))
    {
      ok := !StatusTaken(staging, id, staging[id].Client(), status);
      if ok { staging := staging[id := staging[id].(status := status)]; }
    }

    /** The transaction: all of its statements, or none of them. */
    method RunTransaction(refs: Form -> bool, id: StagingId) returns (ok: bool)
      requires id in staging
      modifies this
      ensures ok == Transaction(old(Tables()), refs, id).Some?
      ensures Tables() == if ok then Transaction(old(Tables()), refs, id).value else old(Tables())
    {
      hide Insertable, WithOnboarding, MayOnboard, Onboarded, Put, Alone;
      var row := staging[id];
      if row.Client() in clients {
        ok := SetStatus(id, Applied);
        return;
      }
      var live;
      ok, live := InsertOnboarding(Tables().live, refs, row);
      if ok { ok := SetStatus(id, Applied); }
      if ok {
        clients, parents, portfolios, configurations := live.clients, live.parents, live.portfolios, live.configurations;
      }
    }

    /** applyClientOnboardingStaging for the change's row. */
    method ApplyOnboarding(refs: Form -> bool, change: ChangeId) returns (success: bool)
      requires forall a, b | a in staging && b in staging && staging[a].change == staging[b].change :: a == b
      modifies this
      ensures Tables() == Apply(old(Tables()), refs, change)
      ensures forall id <- old(staging) | old(staging)[id].change == change :: Applies(old(Tables()), refs, id, Tables())
      ensures (forall id <- old(staging) :: old(staging)[id].change != change) ==> Tables() == old(Tables())
      ensures !success ==> Tables().live == old(Tables()).live
      ensures success <==> forall id <- old(staging) | old(staging)[id].change == change :: staging[id].status == Applied
    {
      if !(exists id <- staging :: staging[id].change == change) { return true; }
      var id :| id in staging && staging[id].change == change;
      ApplyIsAllOrNothing(Tables(), refs, id);
      hide Applies;
      if staging[id].status == Applied { return true; }
      success := RunTransaction(refs, id);
      if !success {
        var marked := SetStatus(id, Failed);
      }
    }

    method DeleteStaging(id: StagingId) returns (deleted: bool)
      modifies this
      ensures deleted == (id in old(staging)) && Tables() == Delete(old(Tables()), id)
      ensures Tables() == old(Tables()).(staging := staging) && id !in staging
      ensures forall other <- old(staging) | other != id :: other in staging && staging[other] == old(staging)[other]
      ensures staging.Keys <= old(staging).Keys
    {
      deleted := id in staging;
      staging := staging - {id};
    }
  }

  // ---- Every run of save, apply and delete ----

  datatype Step =
    | SaveStep(valid: Form -> bool, change: ChangeId, form: Form)
    | ApplyStep(refs: Form -> bool, change: ChangeId)
    | DeleteStep(id: StagingId)
    | OtherWriters(live: Live)

  /** Other governed flows may change the live tables, but only onboarding writes clients. */
  ghost function After(db: Db, s: Step): Db {
    match s
    case SaveStep(valid, change, form) => (match Save(db, valid, change, form) case Some(next) => next case None => db)
    case ApplyStep(refs, change) => Apply(db, refs, change)
    case DeleteStep(id) => Delete(db, id)
    case OtherWriters(live) => if live.clients == db.live.clients then db.(live := live) else db
  }

  ghost function Run(db: Db, ss: seq<Step>): Db
    decreases |ss|
  {
    if ss == [] then db else Run(After(db, ss[0]), ss[1..])
  }

  ghost predicate UniqueRows(staging: map<StagingId, Row>) {
    forall a, b | a in staging && b in staging && a != b ::
      && staging[a].change != staging[b].change
      && !(staging[a].Client() == staging[b].Client() && staging[a].status == staging[b].status)
  }

  /** Unique constraints hold, ids are not reused, and an applied row's client is live. */
  ghost predicate Inv(db: Db) {
    && UniqueRows(db.staging)
    && (forall id <- db.staging :: id < db.nextId)
    && (forall id <- db.staging | db.staging[id].status == Applied :: db.staging[id].Client() in db.live.clients)
  }

  lemma ApplyKeepsInv(db: Db, refs: Form -> bool, id: StagingId)
    requires Inv(db) && id in db.staging
    ensures Inv(ApplyAt(db, refs, id))
  {
    hide Insertable;
  }

  lemma StepKeepsInv(db: Db, s: Step)
    requires Inv(db)
    ensures Inv(After(db, s))
  {
    hide Insertable, NormalForm, ApplyAt;
    match s
    case SaveStep(_, _, _) =>
    case ApplyStep(refs, change) => if RowOf(db, change).Some? { ApplyKeepsInv(db, refs, RowOf(db, change).value); }
    case DeleteStep(_) =>
    case OtherWriters(_) =>
  }

  lemma {:induction false} RunKeepsInv(db: Db, ss: seq<Step>)
    requires Inv(db)
    ensures Inv(Run(db, ss))
    decreases |ss|
  {
    if ss != [] {
      StepKeepsInv(db, ss[0]);
      RunKeepsInv(After(db, ss[0]), ss[1..]);
    }
  }

  /** A row that is applied stays exactly as it is until it is deleted, and its client stays live. */
  lemma {:induction false} AppliedIsFinal(db: Db, ss: seq<Step>, id: StagingId)
    requires Inv(db) && id in db.staging && db.staging[id].status == Applied
    ensures var last := Run(db, ss);
            && (id in last.staging ==> last.staging[id] == db.staging[id])
            && db.staging[id].Client() in last.live.clients
    decreases |ss|
  {
    hide Insertable, NormalForm;
    if ss != [] {
      var next := After(db, ss[0]);
      StepKeepsInv(db, ss[0]);
      if id in next.staging {
        AppliedIsFinal(next, ss[1..], id);
      } else {
        ClientsStay(next, ss[1..], db.staging[id].Client());
        DeletedStaysAway(next, ss[1..], id);
      }
    }
  }

  lemma {:induction false} ClientsStay(db: Db, ss: seq<Step>, client: string)
    requires client in db.live.clients
    ensures client in Run(db, ss).live.clients
    decreases |ss|
  {
    hide Insertable, NormalForm;
    if ss != [] {
      ClientsStay(After(db, ss[0]), ss[1..], client);
    }
  }

  lemma {:induction false} DeletedStaysAway(db: Db, ss: seq<Step>, id: StagingId)
    requires id !in db.staging && id < db.nextId
    ensures id !in Run(db, ss).staging
    decreases |ss|
  {
    hide Insertable, NormalForm;
    if ss != [] {
      DeletedStaysAway(After(db, ss[0]), ss[1..], id);
    }
  }

  // ---- One apply ----

  /** What was there before an onboarding is still there after it. */
  lemma OnboardingOnlyAdds(live: Live, refs: Form -> bool, row: Row)
    ensures var next := WithOnboarding(live, row);
            Insertable(live, refs, row) ==>
              && (forall c <- live.clients :: c in next.clients && next.clients[c] == live.clients[c])
              && (forall p <- live.parents :: p in next.parents && next.parents[p] == live.parents[p])
              && (forall p <- live.portfolios :: p in next.portfolios && next.portfolios[p] == live.portfolios[p])
              && (forall c <- live.configurations ::
                    c in next.configurations && next.configurations[c] == live.configurations[c])
              && (HasParent(row.form) ==> ParentActive(next, row.form.parent.value))
  {
    hide Generate, Build, Parse;
  }

  /** Once a change is applied, applying it again writes nothing at all. */
  lemma ReapplyWritesNothing(db: Db, refs: Form -> bool, again: Form -> bool, change: ChangeId)
    requires Inv(db) && RowOf(db, change).Some?
    requires var once := Apply(db, refs, change);
             once.staging[RowOf(db, change).value].status == Applied
    ensures var once := Apply(db, refs, change);
            Apply(once, again, change) == once
  {
    hide Insertable, WithOnboarding, StatusTaken;
    var id := RowOf(db, change).value;
    var once := Apply(db, refs, change);
    ApplyKeepsInv(db, refs, id);
    assert id in once.staging && once.staging[id].change == change;
    assert RowOf(once, change) == Some(id);
  }

  /** A rolled-back apply is recorded as failed exactly when no other failed row of the client is in the way. */
  lemma FailureIsRecordedIff(db: Db, refs: Form -> bool, id: StagingId)
    requires Inv(db) && id in db.staging && db.staging[id].status != Applied
    requires Transaction(db, refs, id).None?
    ensures ApplyAt(db, refs, id).live == db.live
    ensures ApplyAt(db, refs, id).staging[id].status == Failed
            <==> !StatusTaken(db.staging, id, db.staging[id].Client(), Failed)
  {
  }

  /** A second onboarding of a client that has an applied row never becomes applied. */
  lemma SecondOnboardingNeverApplies(db: Db, refs: Form -> bool, first: StagingId, second: StagingId)
    requires Inv(db) && first in db.staging && second in db.staging && first != second
    requires db.staging[first].status == Applied && db.staging[first].Client() == db.staging[second].Client()
    ensures ApplyAt(db, refs, second).staging[second].status != Applied
    ensures ApplyAt(db, refs, second).live == db.live
  {
  }
}
