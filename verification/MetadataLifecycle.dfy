/**
 Creating and retiring portfolios and parent accounts: the shared validator
 (lib/portfolio-metadata-validation.ts), its SQL lookup and the apply step
 (lib/client-config-db.ts). Parent accounts are named by their unique code.
 */
module MetadataLifecycle {
  import opened Text
  import opened Wrappers

  datatype Portfolio = Portfolio(parent: Option<string>, active: bool)
  datatype ParentAccount = ParentAccount(msa: Option<string>, active: bool)
  datatype Configuration = Configuration(portfolio: string, active: bool)

  datatype Tables = Tables(
    portfolios: map<string, Portfolio>,
    parents: map<string, ParentAccount>,
    configurations: map<string, Configuration>)

  datatype Dimension = PortfolioDimension | ParentAccountDimension
  datatype Action = Create | Retire

  datatype Input = Input(
    change: nat, dimension: Dimension, action: Action, code: string,
    parentAccountCode: Option<string>, msaParentAccountCode: Option<string>)

  datatype Staged = Staged(id: nat, dimension: Dimension, action: Action, code: string, parent: Option<string>, msa: Option<string>)

  /** A code requested by a change that is still open. */
  datatype OpenRequest = OpenRequest(change: nat, dimension: Dimension, code: string)

  datatype Issue = BadCode | BadParentCode | BadMsaCode | CodeExists | ParentNotActive | HasActiveChildren | AlreadyRequested

  function Normal(code: string): string {
    Upper(Trim(code))
  }

  function NormalCode(code: Option<string>): Option<string> {
    if code.Some? then Some(Normal(code.value)) else None
  }

  /** /^[A-Z0-9]+(?:_[A-Z0-9]+)*$/ */
  predicate IsSegmented(s: string) {
    && s != "" && s[0] != '_' && s[|s| - 1] != '_'
    && (forall c <- s :: IsUpperAlnum(c) || c == '_')
    && (forall k | 0 <= k < |s| - 1 :: !(s[k] == '_' && s[k + 1] == '_'))
  }

  predicate IsPortfolioCode(s: string) {
    2 <= |s| <= 15 && AllAlnum(s)
  }

  predicate IsParentCode(s: string) {
    1 <= |s| <= 16 && IsSegmented(s)
  }

  predicate GoodCode(dimension: Dimension, code: string) {
    match dimension
    case PortfolioDimension => IsPortfolioCode(code)
    case ParentAccountDimension => IsParentCode(code)
  }

  /** An optional code that is given and not blank. */
  predicate Given(code: Option<string>) {
    code.Some? && Trim(code.value) != ""
  }

  // ---- The SQL lookup ----

  predicate CodeTaken(db: Tables, dimension: Dimension, code: string) {
    match dimension
    case PortfolioDimension => code in db.portfolios
    case ParentAccountDimension => code in db.parents
  }

  predicate ParentActive(db: Tables, code: string) {
    code in db.parents && db.parents[code].active
  }

  /** Active configurations of the portfolio, or active portfolios of the parent account. */
  predicate HasChildren(db: Tables, dimension: Dimension, code: string) {
    match dimension
    case PortfolioDimension =>
      exists c <- db.configurations :: db.configurations[c].portfolio == code && db.configurations[c].active
    case ParentAccountDimension =>
      exists p <- db.portfolios :: db.portfolios[p].parent == Some(code) && db.portfolios[p].active && code in db.parents
  }

  predicate RequestedElsewhere(open: set<OpenRequest>, dimension: Dimension, code: string, change: nat) {
    exists r <- open :: r.dimension == dimension && r.code == code && r.change != change
  }

  // ---- Validation ----

  /** What a change must satisfy to be staged. */
  predicate Acceptable(input: Input, db: Tables, open: set<OpenRequest>) {
    var code := Normal(input.code);
    && GoodCode(input.dimension, code)
    && (input.dimension.PortfolioDimension? && input.action.Create? && Given(input.parentAccountCode) ==>
          && IsParentCode(Normal(input.parentAccountCode.value))
          && ParentActive(db, Normal(input.parentAccountCode.value)))
    && (input.dimension.ParentAccountDimension? && input.action.Create? && Given(input.msaParentAccountCode) ==>
          IsParentCode(Normal(input.msaParentAccountCode.value)))
    && (input.action.Create? ==> !CodeTaken(db, input.dimension, code))
    && (input.action.Retire? ==> !HasChildren(db, input.dimension, code))
    && !RequestedElsewhere(open, input.dimension, code, input.change)
  }

  /** One or more runs of capitals and digits, with single underscores between them. */
  ghost predicate Segments(s: string) {
    exists parts: seq<string> :: AreSegments(parts) && s == JoinSegments(parts)
  }

  predicate AreSegments(parts: seq<string>) {
    parts != [] && forall p <- parts :: p != "" && forall c <- p :: 'A' <= c <= 'Z' || '0' <= c <= '9'
  }

  function JoinSegments(parts: seq<string>): string
    requires parts != []
  {
    if |parts| == 1 then parts[0] else parts[0] + "_" + JoinSegments(parts[1..])
  }

  lemma {:induction false} JoinedIsSegmented(parts: seq<string>)
    requires AreSegments(parts)
    ensures IsSegmented(JoinSegments(parts))
  {
    var first, s := parts[0], JoinSegments(parts);
    assert first in parts;
    forall k | 0 <= k < |first| ensures IsUpperAlnum(first[k]) { assert first[k] in first; }
    if |parts| > 1 {
      var rest := JoinSegments(parts[1..]);
      assert forall p <- parts[1..] :: p in parts;
      JoinedIsSegmented(parts[1..]);
      assert s == first + "_" + rest;
      forall c | c in s ensures IsUpperAlnum(c) || c == '_' {
        assert c in first || c == '_' || c in rest;
      }
    }
  }

  lemma {:induction false} SegmentedJoins(s: string) returns (parts: seq<string>)
    requires IsSegmented(s)
    ensures AreSegments(parts) && JoinSegments(parts) == s
    decreases |s|
  {
    if k :| 0 <= k < |s| && s[k] == '_' && forall j | 0 <= j < k :: s[j] != '_' {
      var first, tail := s[..k], s[k + 1..];
      assert IsSegmented(tail) by {
        assert forall c <- tail :: c in s;
        assert tail[0] == s[k + 1] && tail[|tail| - 1] == s[|s| - 1];
        forall j | 0 <= j < |tail| - 1 ensures !(tail[j] == '_' && tail[j + 1] == '_') {
          assert tail[j] == s[k + 1 + j] && tail[j + 1] == s[k + 1 + j + 1];
        }
      }
      var others := SegmentedJoins(tail);
      assert forall c <- first :: c in s && c != '_';
      parts := [first] + others;
      assert parts[1..] == others && s == first + "_" + tail;
    } else {
      NoUnderscore(s, |s|);
      parts := [s];
    }
  }

  lemma {:induction false} NoUnderscore(s: string, n: nat)
    requires n <= |s| && forall k | 0 <= k < |s| && s[k] == '_' :: exists j :: 0 <= j < k && s[j] == '_'
    ensures forall k | 0 <= k < n :: s[k] != '_'
  {
    if n > 0 { NoUnderscore(s, n - 1); }
  }

  lemma SegmentedIff(s: string)
    ensures IsSegmented(s) <==> Segments(s)
  {
    hide IsSegmented;
    if IsSegmented(s) {
      var parts := SegmentedJoins(s);
    }
    if parts: seq<string> :| AreSegments(parts) && s == JoinSegments(parts) {
      JoinedIsSegmented(parts);
    }
  }

  /** The database's own format checks on codes. */
  ghost predicate CodeFits(dimension: Dimension, code: string) {
    match dimension
    case PortfolioDimension => 2 <= |code| <= 15 && forall c <- code :: 'A' <= c <= 'Z' || '0' <= c <= '9'
    case ParentAccountDimension => 1 <= |code| <= 16 && Segments(code)
  }

  lemma GoodCodeIff(dimension: Dimension, code: string)
    ensures GoodCode(dimension, code) <==> CodeFits(dimension, code)
  {
    SegmentedIff(code);
  }

  /**
   The rules of staging, spelt out: well-formed codes, an optional one only when it is not
   blank, a free code and an active parent for a creation, no active children for a
   retirement, and no other open change that names the code.
   */
  ghost predicate MayStage(input: Input, db: Tables, open: set<OpenRequest>) {
    var code, parent, msa := Upper(Trim(input.code)), input.parentAccountCode, input.msaParentAccountCode;
    && CodeFits(input.dimension, code)
    && (forall r <- open | r.change != input.change :: !(r.dimension == input.dimension && r.code == code))
    && match (input.dimension, input.action)
       case (PortfolioDimension, Create) =>
         && code !in db.portfolios
         && (parent.Some? && Trim(parent.value) != "" ==>
               var named := Upper(Trim(parent.value));
               CodeFits(ParentAccountDimension, named) && named in db.parents && db.parents[named].active)
       case (ParentAccountDimension, Create) =>
         && code !in db.parents
         && (msa.Some? && Trim(msa.value) != "" ==> CodeFits(ParentAccountDimension, Upper(Trim(msa.value))))
       case (PortfolioDimension, Retire) =>
         forall c <- db.configurations | db.configurations[c].portfolio == code :: !db.configurations[c].active
       case (ParentAccountDimension, Retire) =>
         code in db.parents ==>
           forall p <- db.portfolios | db.portfolios[p].parent == Some(code) :: !db.portfolios[p].active
  }

  lemma PortfolioCreationAcceptableIff(input: Input, db: Tables, open: set<OpenRequest>)
    requires input.action.Create? && input.dimension.PortfolioDimension?
    ensures Acceptable(input, db, open) <==> MayStage(input, db, open)
  {
    GoodCodeIff(PortfolioDimension, Normal(input.code));
    if Given(input.parentAccountCode) { GoodCodeIff(ParentAccountDimension, Normal(input.parentAccountCode.value)); }
    hide Upper, Trim, CodeFits, IsPortfolioCode, IsParentCode, HasChildren;
  }

  lemma ParentCreationAcceptableIff(input: Input, db: Tables, open: set<OpenRequest>)
    requires input.action.Create? && input.dimension.ParentAccountDimension?
    ensures Acceptable(input, db, open) <==> MayStage(input, db, open)
  {
    GoodCodeIff(ParentAccountDimension, Normal(input.code));
    if Given(input.msaParentAccountCode) { GoodCodeIff(ParentAccountDimension, Normal(input.msaParentAccountCode.value)); }
    hide Upper, Trim, CodeFits, IsPortfolioCode, IsParentCode, HasChildren, ParentActive;
  }

  lemma RetirementAcceptableIff(input: Input, db: Tables, open: set<OpenRequest>)
    requires input.action.Retire?
    ensures Acceptable(input, db, open) <==> MayStage(input, db, open)
  {
    GoodCodeIff(input.dimension, Normal(input.code));
    hide Upper, Trim, GoodCode, CodeFits, Given, ParentActive, CodeTaken;
  }

  lemma AcceptableIff(input: Input, db: Tables, open: set<OpenRequest>)
    ensures Acceptable(input, db, open) <==> MayStage(input, db, open)
  {
    hide Acceptable, MayStage;
    if input.action.Retire? {
      RetirementAcceptableIff(input, db, open);
    } else if input.dimension.PortfolioDimension? {
      PortfolioCreationAcceptableIff(input, db, open);
    } else {
      ParentCreationAcceptableIff(input, db, open);
    }
  }

  /** validatePortfolioMetadataFormat: the code and the optional codes, all reported together. */
  method ValidateFormat(input: Input) returns (issues: seq<Issue>)
    ensures BadCode in issues <==> !GoodCode(input.dimension, Normal(input.code))
    ensures BadParentCode in issues
            <==> input.dimension.PortfolioDimension? && input.action.Create? && Given(input.parentAccountCode)
                 && !IsParentCode(Normal(input.parentAccountCode.value))
    ensures BadMsaCode in issues
            <==> input.dimension.ParentAccountDimension? && input.action.Create? && Given(input.msaParentAccountCode)
                 && !IsParentCode(Normal(input.msaParentAccountCode.value))
    ensures forall i <- issues :: i.BadCode? || i.BadParentCode? || i.BadMsaCode?
  {
    hide GoodCode, IsParentCode, Trim, Normal;
    issues := [];
    if !GoodCode(input.dimension, Normal(input.code)) { issues := issues + [BadCode]; }
    if input.dimension.PortfolioDimension? && input.action.Create? && Given(input.parentAccountCode) {
      if !IsParentCode(Normal(input.parentAccountCode.value)) { issues := issues + [BadParentCode]; }
    }
    if input.dimension.ParentAccountDimension? && input.action.Create? && Given(input.msaParentAccountCode) {
      if !IsParentCode(Normal(input.msaParentAccountCode.value)) { issues := issues + [BadMsaCode]; }
    }
  }

  /** validatePortfolioMetadataChange: no issue exactly when the change is acceptable. */
  method ValidateChange(input: Input, db: Tables, open: set<OpenRequest>) returns (issues: seq<Issue>)
    ensures issues == [] <==> Acceptable(input, db, open)
    ensures issues == [] <==> MayStage(input, db, open)
    ensures CodeExists in issues ==> input.action.Create? && CodeTaken(db, input.dimension, Normal(input.code))
    ensures HasActiveChildren in issues ==> input.action.Retire? && HasChildren(db, input.dimension, Normal(input.code))
  {
    AcceptableIff(input, db, open);
    hide MayStage, GoodCode, IsParentCode, Trim, Normal, HasChildren;
    issues := ValidateFormat(input);
    if |issues| > 0 { assert issues[0] in issues; return; }
    var code := Normal(input.code);
    if input.action.Create? {
      if CodeTaken(db, input.dimension, code) {
        issues := issues + [CodeExists];
        return;
      }
    }
    if input.dimension.PortfolioDimension? && input.action.Create? && Given(input.parentAccountCode) {
      if !ParentActive(db, Normal(input.parentAccountCode.value)) {
        issues := issues + [ParentNotActive];
        return;
      }
    }
    if input.action.Retire? {
      if HasChildren(db, input.dimension, code) {
        issues := issues + [HasActiveChildren];
        return;
      }
    }
    if RequestedElsewhere(open, input.dimension, code, input.change) {
      issues := issues + [AlreadyRequested];
    }
  }

  // ---- Staging and applying ----

  /** The row stagePortfolioMetadataChange inserts; a blank parent code is staged as the empty string. */
  function StagedRow(id: nat, input: Input): Staged {
    Staged(id, input.dimension, input.action, Normal(input.code),
           if input.dimension.PortfolioDimension? then NormalCode(input.parentAccountCode) else None,
           if input.dimension.ParentAccountDimension? then NormalCode(input.msaParentAccountCode) else None)
  }

  /** parent_account_id as resolved when the portfolio is created: null unless that parent is active now. */
  function ResolvedParent(db: Tables, parent: Option<string>): Option<string> {
    if parent.Some? && parent.value != "" && ParentActive(db, parent.value) then parent else None
  }

  /** One staged row; None when its statement violates a key or a format. */
  function ApplyRow(db: Tables, row: Staged): Option<Tables> {
    match (row.dimension, row.action)
    case (PortfolioDimension, Create) =>
      if row.code in db.portfolios || !IsPortfolioCode(row.code) then None
      else Some(db.(portfolios := db.portfolios[row.code := Portfolio(ResolvedParent(db, row.parent), true)]))
    case (PortfolioDimension, Retire) =>
      if row.code in db.portfolios
      then Some(db.(portfolios := db.portfolios[row.code := db.portfolios[row.code].(active := false)]))
      else Some(db)
    case (ParentAccountDimension, Create) =>
      if row.code in db.parents || !IsParentCode(row.code) || (row.msa.Some? && !IsParentCode(row.msa.value)) then None
      else Some(db.(parents := db.parents[row.code := ParentAccount(row.msa, true)]))
    case (ParentAccountDimension, Retire) =>
      if row.code in db.parents
      then Some(db.(parents := db.parents[row.code := db.parents[row.code].(active := false)]))
      else Some(db)
  }

  /**
   A creation fails exactly when the code is taken or malformed; otherwise the new row is
   active, under the requested parent if that is active now, or with the requested MSA code. A
   retirement clears the active flag of its row, if there is one, and nothing else.
   */
  ghost predicate Settles(db: Tables, row: Staged, o: Option<Tables>) {
    match (row.dimension, row.action)
    case (PortfolioDimension, Create) =>
      && (o.None? <==> row.code in db.portfolios || !CodeFits(PortfolioDimension, row.code))
      && (o.Some? ==>
            && row.code in o.value.portfolios && o.value == db.(portfolios := o.value.portfolios)
            && Put(db.portfolios, o.value.portfolios, row.code, o.value.portfolios[row.code])
            && o.value.portfolios[row.code].active
            && o.value.portfolios[row.code].parent
               == match row.parent
                  case Some(code) => if code != "" && code in db.parents && db.parents[code].active then Some(code) else None
                  case None => None)
    case (ParentAccountDimension, Create) =>
      && (o.None? <==>
            || row.code in db.parents || !CodeFits(ParentAccountDimension, row.code)
            || (row.msa.Some? && !CodeFits(ParentAccountDimension, row.msa.value)))
      && (o.Some? ==>
            && o.value == db.(parents := o.value.parents)
            && Put(db.parents, o.value.parents, row.code, ParentAccount(row.msa, true)))
    case (PortfolioDimension, Retire) =>
      && o.Some? && o.value == db.(portfolios := o.value.portfolios)
      && if row.code !in db.portfolios then o.value == db
         else Put(db.portfolios, o.value.portfolios, row.code, Portfolio(db.portfolios[row.code].parent, false))
    case (ParentAccountDimension, Retire) =>
      && o.Some? && o.value == db.(parents := o.value.parents)
      && if row.code !in db.parents then o.value == db
         else Put(db.parents, o.value.parents, row.code, ParentAccount(db.parents[row.code].msa, false))
  }

  lemma RowSettles(db: Tables, row: Staged)
    ensures Settles(db, row, ApplyRow(db, row))
  {
    GoodCodeIff(row.dimension, row.code);
    if row.msa.Some? { GoodCodeIff(ParentAccountDimension, row.msa.value); }
    hide CodeFits, IsPortfolioCode, IsParentCode;
  }

  function ApplyRows(db: Tables, rows: seq<Staged>): Option<Tables> {
    if rows == [] then Some(db)
    else
      var before := ApplyRows(db, rows[..|rows| - 1]);
      if before.Some? then ApplyRow(before.value, rows[|rows| - 1]) else None
  }

  function IdsOf(rows: seq<Staged>): set<nat> {
    set r | r in rows :: r.id
  }

  lemma IdsOneMore(rows: seq<Staged>, k: nat)
    requires k < |rows|
    ensures IdsOf(rows[..k + 1]) == IdsOf(rows[..k]) + {rows[k].id}
  {
    assert rows[..k + 1] == rows[..k] + [rows[k]];
  }

  lemma RunOneMore(db: Tables, rows: seq<Staged>, k: nat)
    requires k < |rows|
    ensures ApplyRows(db, rows[..k + 1])
            == match ApplyRows(db, rows[..k]) case Some(now) => ApplyRow(now, rows[k]) case None => None
  {
    hide ApplyRow;
    assert rows[..k + 1][..k] == rows[..k];
  }

  class MetadataStore {
    var tables: Tables
    var applied: set<nat>

    constructor (tables: Tables)
      ensures this.tables == tables && applied == {}
    {
      this.tables, applied := tables, {};
    }

    /**
     applyChangePortfolioMetadataRequests. A statement that fails leaves the transaction
     aborted: that row and every later one is reported failed and nothing is committed.
     */
    method ApplyMetadataRequests(rows: seq<Staged>) returns (success: bool, outcomes: seq<bool>)
      modifies this
      ensures success == ApplyRows(old(tables), rows).Some?
      ensures success ==> tables == ApplyRows(old(tables), rows).value && applied == old(applied) + IdsOf(rows)
      ensures !success ==> tables == old(tables) && applied == old(applied)
      ensures |outcomes| == |rows|
      ensures forall k | 0 <= k < |rows| :: outcomes[k] <==> ApplyRows(old(tables), rows[..k + 1]).Some?
    {
      assert IdsOf(rows[..0]) == {};
      assert ApplyRows(tables, rows[..0]) == Some(tables);
      hide ApplyRow, ApplyRows, IdsOf;
      var now, marked, aborted := tables, applied, false;
      outcomes := [];
      for k := 0 to |rows|
        invariant tables == old(tables) && applied == old(applied) && |outcomes| == k
        invariant forall j | 0 <= j < k :: outcomes[j] <==> ApplyRows(tables, rows[..j + 1]).Some?
        invariant aborted == ApplyRows(tables, rows[..k]).None?
        invariant !aborted ==> ApplyRows(tables, rows[..k]) == Some(now) && marked == applied + IdsOf(rows[..k])
      {
        IdsOneMore(rows, k);
        RunOneMore(tables, rows, k);
        if !aborted {
          var next := ApplyRow(now, rows[k]);
          if next.Some? {
            now, marked := next.value, marked + {rows[k].id};
          } else {
            aborted := true;
          }
        }
        outcomes := outcomes + [!aborted];
      }
      assert rows[..|rows|] == rows;
      success := !aborted;
      if success { tables, applied := now, marked; }
    }
  }

  // ---- The three invariants ----

  predicate Sound(db: Tables) {
    && (forall p <- db.portfolios | db.portfolios[p].active && db.portfolios[p].parent.Some? ::
          ParentActive(db, db.portfolios[p].parent.value))
    && (forall c <- db.configurations | db.configurations[c].active ::
          db.configurations[c].portfolio in db.portfolios && db.portfolios[db.configurations[c].portfolio].active)
  }

  /** Foreign keys: every reference names a row, active or retired. */
  predicate Referenced(db: Tables) {
    && (forall p <- db.portfolios | db.portfolios[p].parent.Some? :: db.portfolios[p].parent.value in db.parents)
    && (forall c <- db.configurations :: db.configurations[c].portfolio in db.portfolios)
  }

  /** A code names one row for good: applying keeps every row, and changes at most its active flag. */
  predicate KeepsIdentities(before: Tables, after: Tables) {
    && (forall p <- before.portfolios ::
          p in after.portfolios && after.portfolios[p].parent == before.portfolios[p].parent
          && (after.portfolios[p].active ==> before.portfolios[p].active))
    && (forall p <- before.parents ::
          p in after.parents && after.parents[p].msa == before.parents[p].msa
          && (after.parents[p].active ==> before.parents[p].active))
    && after.configurations == before.configurations
  }

  lemma ApplyKeepsIdentities(db: Tables, row: Staged)
    requires ApplyRow(db, row).Some?
    ensures KeepsIdentities(db, ApplyRow(db, row).value)
    ensures Referenced(db) ==> Referenced(ApplyRow(db, row).value)
  {
  }

  /** Applying a row keeps the tables sound exactly when it does not retire something with active children. */
  lemma ApplyKeepsSoundIff(db: Tables, row: Staged)
    requires Sound(db) && Referenced(db) && ApplyRow(db, row).Some?
    ensures Sound(ApplyRow(db, row).value) <==> !(row.action.Retire? && HasChildren(db, row.dimension, row.code))
  {
  }

  /** An MSA code that is given but blank: staged as the empty string, which the column refuses. */
  predicate BlankMsa(input: Input) {
    && input.dimension.ParentAccountDimension? && input.action.Create?
    && input.msaParentAccountCode.Some? && Trim(input.msaParentAccountCode.value) == ""
  }

  /** An accepted change applies unless it carries a blank MSA code, and then it never does. */
  lemma AcceptedChangeAppliesIff(db: Tables, input: Input, open: set<OpenRequest>, id: nat)
    requires Acceptable(input, db, open)
    ensures ApplyRow(db, StagedRow(id, input)).Some? <==> !BlankMsa(input)
  {
    hide HasChildren, RequestedElsewhere, ParentActive, ResolvedParent, Trim, Upper, IsSegmented, IsPortfolioCode;
    if input.msaParentAccountCode.Some? { BlankNormal(input.msaParentAccountCode.value); }
    hide Normal;
  }

  lemma BlankNormal(code: string)
    ensures Trim(code) == "" <==> Normal(code) == ""
  {
    hide Trim;
    assert |Normal(code)| == |Trim(code)|;
  }

  lemma StagedParentResolves(db: Tables, input: Input, open: set<OpenRequest>, id: nat)
    requires Acceptable(input, db, open) && input.dimension.PortfolioDimension? && input.action.Create?
    ensures ResolvedParent(db, StagedRow(id, input).parent)
            == if Given(input.parentAccountCode) then Some(Normal(input.parentAccountCode.value)) else None
  {
  }

  /** When an accepted change applies it keeps the tables sound and does what was asked. */
  lemma AcceptedChangeKeepsSound(db: Tables, input: Input, open: set<OpenRequest>, id: nat)
    requires Sound(db) && Referenced(db) && Acceptable(input, db, open)
    requires ApplyRow(db, StagedRow(id, input)).Some?
    ensures var code := Normal(input.code);
            var next := ApplyRow(db, StagedRow(id, input)).value;
            && Sound(next) && Referenced(next)
            && match (input.dimension, input.action)
               case (PortfolioDimension, Create) =>
                 && code !in db.portfolios && code in next.portfolios && next.portfolios[code].active
                 && next.portfolios[code].parent
                    == if Given(input.parentAccountCode) then Some(Normal(input.parentAccountCode.value)) else None
               case (ParentAccountDimension, Create) =>
                 code !in db.parents && ParentActive(next, code)
               case (PortfolioDimension, Retire) =>
                 code in db.portfolios ==> !next.portfolios[code].active
               case (ParentAccountDimension, Retire) => !ParentActive(next, code)
  {
    var row := StagedRow(id, input);
    ApplyKeepsIdentities(db, row);
    ApplyKeepsSoundIff(db, row);
    if input.dimension.PortfolioDimension? && input.action.Create? {
      StagedParentResolves(db, input, open, id);
    }
    hide IsPortfolioCode, IsParentCode, Normal, Sound, Referenced, HasChildren, Given;
  }

  /** The MSA code a created parent account carries is the one that was asked for. */
  lemma CreatedParentCarriesMsa(db: Tables, input: Input, id: nat)
    requires input.dimension.ParentAccountDimension? && input.action.Create? && ApplyRow(db, StagedRow(id, input)).Some?
    ensures var next := ApplyRow(db, StagedRow(id, input)).value;
            && Normal(input.code) in next.parents
            && match input.msaParentAccountCode
               case Some(msa) => next.parents[Normal(input.code)].msa == Some(Upper(Trim(msa)))
               case None => next.parents[Normal(input.code)].msa == None
  {
    hide Trim, Upper;
  }

  /** Nothing asks that a retired code exists: the format and other open changes decide, and applying has no effect. */
  lemma RetiringUnknownCodeDoesNothing(db: Tables, input: Input, open: set<OpenRequest>, id: nat)
    requires Referenced(db) && input.action.Retire? && !CodeTaken(db, input.dimension, Normal(input.code))
    ensures Acceptable(input, db, open)
            <==> && GoodCode(input.dimension, Normal(input.code))
                 && !RequestedElsewhere(open, input.dimension, Normal(input.code), input.change)
    ensures ApplyRow(db, StagedRow(id, input)) == Some(db)
  {
    hide Normal, GoodCode;
  }

  /** A change that is validated and, when accepted, applied before anything else happens. */
  datatype Request = Request(input: Input, open: set<OpenRequest>)

  function Processed(db: Tables, r: Request): Tables {
    if !Acceptable(r.input, db, r.open) then db
    else match ApplyRow(db, StagedRow(0, r.input)) case Some(next) => next case None => db
  }

  function ProcessedAll(db: Tables, requests: seq<Request>): Tables {
    if requests == [] then db else Processed(ProcessedAll(db, requests[..|requests| - 1]), requests[|requests| - 1])
  }

  /** Any number of such changes keeps the tables sound and every code on the row it named first. */
  lemma {:induction false} ProcessedChangesKeepSound(db: Tables, requests: seq<Request>)
    requires Sound(db) && Referenced(db)
    ensures var last := ProcessedAll(db, requests); Sound(last) && Referenced(last) && KeepsIdentities(db, last)
  {
    assert KeepsIdentities(db, db);
    hide Sound, Referenced, Acceptable, ApplyRow, StagedRow, KeepsIdentities, Normal, Given, ParentActive;
    if requests != [] {
      var before, r := ProcessedAll(db, requests[..|requests| - 1]), requests[|requests| - 1];
      ProcessedChangesKeepSound(db, requests[..|requests| - 1]);
      if Acceptable(r.input, before, r.open) && ApplyRow(before, StagedRow(0, r.input)).Some? {
        AcceptedChangeKeepsSound(before, r.input, r.open, 0);
        ApplyKeepsIdentities(before, StagedRow(0, r.input));
        KeepsIdentitiesTrans(db, before, Processed(before, r));
      }
    }
  }

  lemma KeepsIdentitiesTrans(a: Tables, b: Tables, c: Tables)
    requires KeepsIdentities(a, b) && KeepsIdentities(b, c)
    ensures KeepsIdentities(a, c)
  {
  }

  /**
   The facts must still hold when the change is applied. Two accepted changes, a portfolio
   under a parent and that parent's retirement, applied one after the other: created first,
   the parent is retired under an active portfolio; retired first, the portfolio is created
   with no parent at all.
   */
  lemma StaleFactsLoseTheParent(db: Tables, create: Input, retire: Input, open: set<OpenRequest>)
    requires Sound(db) && Referenced(db) && Acceptable(create, db, open) && Acceptable(retire, db, open)
    requires create.dimension.PortfolioDimension? && create.action.Create? && Given(create.parentAccountCode)
    requires retire.dimension.ParentAccountDimension? && retire.action.Retire?
    requires Normal(create.parentAccountCode.value) == Normal(retire.code)
    ensures var first, second := StagedRow(1, create), StagedRow(2, retire);
            && ApplyRows(db, [first, second]).Some? && !Sound(ApplyRows(db, [first, second]).value)
            && ApplyRows(db, [second, first]).Some? && Sound(ApplyRows(db, [second, first]).value)
            && Normal(create.code) in ApplyRows(db, [second, first]).value.portfolios
            && ApplyRows(db, [second, first]).value.portfolios[Normal(create.code)] == Portfolio(None, true)
  {
    var first, second := StagedRow(1, create), StagedRow(2, retire);
    StagedParentResolves(db, create, open, 1);
    AcceptedChangeAppliesIff(db, create, open, 1);
    AcceptedChangeKeepsSound(db, create, open, 1);
    AcceptedChangeKeepsSound(db, retire, open, 2);
    TwoRows(db, first, second);
    TwoRows(db, second, first);
    var created := ApplyRow(db, first).value;
    assert created.portfolios[first.code] == Portfolio(Some(second.code), true);
    assert HasChildren(created, ParentAccountDimension, second.code);
    ApplyKeepsSoundIff(created, second);
    var retired := ApplyRow(db, second).value;
    assert retired.portfolios == db.portfolios && !ParentActive(retired, second.code);
    hide Normal, IsPortfolioCode, IsParentCode;
    ApplyKeepsSoundIff(retired, first);
  }

  lemma TwoRows(db: Tables, a: Staged, b: Staged)
    requires ApplyRow(db, a).Some?
    ensures ApplyRows(db, [a, b]) == ApplyRow(ApplyRow(db, a).value, b)
  {
    hide ApplyRow;
    assert [a, b][..1] == [a] && [a][..0] == [];
    assert ApplyRows(db, [a][..0]) == Some(db);
    assert ApplyRows(db, [a]) == ApplyRow(db, a);
  }
}
