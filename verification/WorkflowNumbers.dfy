/**
 The numbers the triggers assign to node attempts and to versions: which statements keep them
 without gaps, and what a run of them keeps.
 */
module WorkflowNumbers {
  import opened Numbering
  import opened RowNumbers
  import opened Wrappers
  import opened WorkflowSchema
  import opened WorkflowStatements
  import opened WorkflowInvariants
  import opened WorkflowTheorems

  // ---- Runs ----

  ghost predicate RunSpares(db: Db, ss: seq<Statement>, spares: (Db, Statement) -> bool)
    decreases |ss|
  {
    ss != [] ==> spares(db, ss[0]) && RunSpares(After(db, ss[0]), ss[1..], spares)
  }

  /** What holds after a step exactly when the step spares it holds all through a run exactly when every step does. */
  lemma {:induction false} RunKeepsThroughoutIff(db: Db, ss: seq<Statement>, holds: Db -> bool, spares: (Db, Statement) -> bool)
    requires Inv(db) && holds(db)
    requires forall d, s :: Inv(d) && holds(d) ==> (holds(After(d, s)) <==> spares(d, s))
    ensures RunSpares(db, ss, spares) <==> forall k | 0 <= k <= |ss| :: holds(Run(db, ss[..k]))
    decreases |ss|
  {
    hide Inv, After;
    if ss != [] {
      var next, rest := After(db, ss[0]), ss[1..];
      StepKeepsInv(db, ss[0]);
      forall k | 0 <= k < |ss| ensures Run(db, ss[..k + 1]) == Run(next, rest[..k]) {
        assert ss[..k + 1][1..] == rest[..k];
      }
      assert Run(db, ss[..1]) == Run(next, rest[..0]) == next;
      if holds(next) {
        RunKeepsThroughoutIff(next, rest, holds, spares);
        if RunSpares(next, rest, spares) {
          forall k | 0 <= k <= |ss| ensures holds(Run(db, ss[..k])) {
            if k > 0 { assert Run(db, ss[..k]) == Run(next, rest[..k - 1]); }
          }
        } else {
          var k :| 0 <= k <= |rest| && !holds(Run(next, rest[..k]));
          assert !holds(Run(db, ss[..k + 1]));
        }
      }
    }
  }

  // ---- Attempts of a node in an instance ----

  function NodeRun(a: Attempt): (Id, Id) {
    (a.instance, a.node)
  }

  function AttemptNumber(a: Attempt): int {
    a.attempt
  }

  ghost predicate AttemptsNumbered(db: Db) {
    Numbered(db.attempts, NodeRun, AttemptNumber)
  }

  /** The largest number among the attempts of this row's instance and node. */
  ghost function LastAttempt(attempts: map<Id, Attempt>, row: Attempt): int {
    MaxOrZero(NumbersIn(attempts, NodeRun, AttemptNumber, NodeRun(row)))
  }

  /** Every statement fits, but for an UPDATE that misplaces a number and a DELETE of an attempt that is not the last. */
  ghost predicate SparesAttemptNumbers(db: Db, s: Statement) {
    match s
    case UpdateAttempt(id, _, row) =>
      id in db.attempts && Step(db, s).Done? ==> FitsNumbering(db.attempts, NodeRun, AttemptNumber, db.attempts[id], row)
    case DeleteAttempt(id) =>
      id in db.attempts && Step(db, s).Done? ==> db.attempts[id].attempt == LastAttempt(db.attempts, db.attempts[id])
    case _ => true
  }

  lemma AttemptNumbersAreTheirs(db: Db, row: Attempt)
    ensures AttemptNumbers(db, row.instance, row.node) == NumbersIn(db.attempts, NodeRun, AttemptNumber, NodeRun(row))
  {
    forall n | n in NumbersIn(db.attempts, NodeRun, AttemptNumber, NodeRun(row)) ensures n in AttemptNumbers(db, row.instance, row.node) {
      var a :| a in db.attempts && NodeRun(db.attempts[a]) == NodeRun(row) && AttemptNumber(db.attempts[a]) == n;
    }
    forall n | n in AttemptNumbers(db, row.instance, row.node) ensures n in NumbersIn(db.attempts, NodeRun, AttemptNumber, NodeRun(row)) {
      var a :| a in db.attempts && db.attempts[a].instance == row.instance && db.attempts[a].node == row.node && db.attempts[a].attempt == n;
      assert NodeRun(db.attempts[a]) == NodeRun(row) && AttemptNumber(db.attempts[a]) == n;
    }
  }

  lemma AttemptKeysDiffer(db: Db)
    requires Constraints(db)
    ensures Distinct(db.attempts, NodeRun, AttemptNumber)
  {
    forall a <- db.attempts, b <- db.attempts | a != b && NodeRun(db.attempts[a]) == NodeRun(db.attempts[b])
      ensures AttemptNumber(db.attempts[a]) != AttemptNumber(db.attempts[b])
    {
      assert AttemptKey(db.attempts[a]) != AttemptKey(db.attempts[b]);
    }
  }

  lemma InsertKeepsAttemptNumbers(db: Db, id: Id, row: Attempt)
    requires AttemptsNumbered(db) && AddAttempt(db, id, row).Done?
    ensures AttemptsNumbered(AddAttempt(db, id, row).db)
  {
    hide Constraints, Numbered, NumbersOf;
    var numbered := row.(attempt := MaxOrZero(AttemptNumbers(db, row.instance, row.node)) + 1);
    AttemptNumbersAreTheirs(db, row);
    AdditionNumbersIff(db.attempts, NodeRun, AttemptNumber, id, numbered);
  }

  lemma InstanceDropKeepsNumbers(db: Db, id: Id)
    requires AttemptsNumbered(db) && DropInstance(db, id).Done?
    ensures AttemptsNumbered(DropInstance(db, id).db)
  {
    var next := DropInstance(db, id).db;
    if id in db.instances {
      assert next.attempts == db.attempts - AttemptsOf(db, id);
    }
    hide DropInstance, Dense;
    if id in db.instances {
      forall g: (Id, Id)
        ensures NumbersIn(next.attempts, NodeRun, AttemptNumber, g)
                == if g.0 == id then {} else NumbersIn(db.attempts, NodeRun, AttemptNumber, g)
      {
        forall n | g.0 != id && n in NumbersIn(db.attempts, NodeRun, AttemptNumber, g)
          ensures n in NumbersIn(next.attempts, NodeRun, AttemptNumber, g)
        {
          var a :| a in db.attempts && NodeRun(db.attempts[a]) == g && AttemptNumber(db.attempts[a]) == n;
          assert a in next.attempts && next.attempts[a] == db.attempts[a];
        }
      }
      NoNumbersAreDense();
    }
  }

  lemma NoNumbersAreDense()
    ensures Dense({})
  {
  }

  lemma AttemptChangeNumbersIff(db: Db, id: Id, newId: Id, row: Attempt)
    requires Inv(db) && AttemptsNumbered(db) && id in db.attempts && ChangeAttempt(db, id, newId, row).Done?
    ensures AttemptsNumbered(ChangeAttempt(db, id, newId, row).db)
            <==> FitsNumbering(db.attempts, NodeRun, AttemptNumber, db.attempts[id], row)
  {
    AttemptKeysDiffer(db);
    AttemptKeysDiffer(ChangeAttempt(db, id, newId, row).db);
    hide Constraints, Numbered, FitsNumbering, Distinct;
    MoveNumbersIff(db.attempts, NodeRun, AttemptNumber, id, newId, row);
  }

  /** Deleting one attempt keeps the numbering without gaps exactly when it was the last one. */
  lemma AttemptDeleteKeepsNumbersIffLast(db: Db, id: Id)
    requires Inv(db) && AttemptsNumbered(db) && id in db.attempts && DropAttempt(db, id).Done?
    ensures AttemptsNumbered(DropAttempt(db, id).db)
            <==> db.attempts[id].attempt == LastAttempt(db.attempts, db.attempts[id])
  {
    AttemptKeysDiffer(db);
    hide Constraints, Numbered, Distinct;
    RemovalNumbersIff(db.attempts, NodeRun, AttemptNumber, id);
  }

  lemma OtherStatementsSpareAttempts(db: Db, s: Statement)
    requires !s.InsertAttempt? && !s.UpdateAttempt? && !s.DeleteAttempt? && !s.DeleteInstance?
    ensures After(db, s).attempts == db.attempts
  {
    hide Constraints, VersionStep, ContentStep;
    StepKeepsOneSide(db, s);
  }

  lemma MissingAttemptIsLeft(db: Db, s: Statement)
    requires (s.UpdateAttempt? || s.DeleteAttempt?) && s.id !in db.attempts
    ensures After(db, s) == db
  {
  }

  /** Of all statements, exactly those that spare the numbers leave the attempts of every node and instance numbered 1..n. */
  lemma StepKeepsAttemptNumbersIff(db: Db, s: Statement)
    requires Inv(db) && AttemptsNumbered(db)
    ensures AttemptsNumbered(After(db, s)) <==> SparesAttemptNumbers(db, s)
  {
    hide Inv, Numbered, FitsNumbering, AddAttempt, ChangeAttempt, DropAttempt, DropInstance, VersionStep, ContentStep,
         WorkStep;
    if Step(db, s).Done? {
      match s
      case InsertAttempt(id, row) => InsertKeepsAttemptNumbers(db, id, row);
      case UpdateAttempt(id, newId, row) =>
        if id in db.attempts { AttemptChangeNumbersIff(db, id, newId, row); } else { MissingAttemptIsLeft(db, s); }
      case DeleteAttempt(id) =>
        if id in db.attempts { AttemptDeleteKeepsNumbersIffLast(db, id); } else { MissingAttemptIsLeft(db, s); }
      case DeleteInstance(id) => InstanceDropKeepsNumbers(db, id);
      case _ => OtherStatementsSpareAttempts(db, s);
    }
  }

  /** A run keeps the numbering at every step if and only if each of its statements spares it. */
  lemma RunKeepsAttemptNumbersIff(db: Db, ss: seq<Statement>)
    requires Inv(db) && AttemptsNumbered(db)
    ensures RunSpares(db, ss, SparesAttemptNumbers) <==> forall k | 0 <= k <= |ss| :: AttemptsNumbered(Run(db, ss[..k]))
  {
    hide Inv, AttemptsNumbered, SparesAttemptNumbers, After, Run;
    forall d, s | Inv(d) && AttemptsNumbered(d) ensures AttemptsNumbered(After(d, s)) <==> SparesAttemptNumbers(d, s) {
      StepKeepsAttemptNumbersIff(d, s);
    }
    RunKeepsThroughoutIff(db, ss, AttemptsNumbered, SparesAttemptNumbers);
  }

  /** So the attempts of a node in an instance are numbered 1..n, and n is within the last attempt's own maximum. */
  lemma AttemptsAreGaplessAndBounded(ss: seq<Statement>, a: Id, k: int)
    requires RunSpares(EMPTY, ss, SparesAttemptNumbers) && a in Run(EMPTY, ss).attempts
    ensures var db := Run(EMPTY, ss);
            var last := db.attempts[a];
            && (1 <= k <= last.attempt ==>
                  exists b <- db.attempts ::
                    db.attempts[b].instance == last.instance && db.attempts[b].node == last.node && db.attempts[b].attempt == k)
            && 1 <= last.attempt <= last.maxAttempts
  {
    hide DefinitionConstraints, VersionConstraints, ReviewConstraints, NodeConstraints, EdgeConstraints,
         BindingConstraints, InstanceConstraints, TaskConstraints, EventConstraints, Step;
    var db := Run(EMPTY, ss);
    var last := db.attempts[a];
    ReachableKeepsInv(ss);
    assert AttemptRowOk(db.nodes, db.instances, last);
    ReachableKeepsInv([]);
    hide Constraints;
    assert AttemptsNumbered(EMPTY) by {
      forall g ensures NumbersIn(EMPTY.attempts, NodeRun, AttemptNumber, g) == {} {}
    }
    RunKeepsAttemptNumbersIff(EMPTY, ss);
    assert ss[..|ss|] == ss;
    assert AttemptNumber(last) in NumbersIn(db.attempts, NodeRun, AttemptNumber, NodeRun(last));
    if 1 <= k <= last.attempt {
      assert k in NumbersIn(db.attempts, NodeRun, AttemptNumber, NodeRun(last));
      var b :| b in db.attempts && NodeRun(db.attempts[b]) == NodeRun(last) && AttemptNumber(db.attempts[b]) == k;
    }
  }

  // ---- Versions of a definition ----

  function DefinitionOf(v: Version): Id {
    v.definition
  }

  function VersionNumber(v: Version): int {
    v.number
  }

  ghost predicate VersionsNumbered(db: Db) {
    Numbered(db.versions, DefinitionOf, VersionNumber)
  }

  /** Every statement fits, but for an UPDATE that misplaces a number and a DELETE of a version that is not the last. */
  ghost predicate SparesVersionNumbers(db: Db, s: Statement) {
    match s
    case UpdateVersion(id, _, row) =>
      id in db.versions && Step(db, s).Done? ==> FitsNumbering(db.versions, DefinitionOf, VersionNumber, db.versions[id], row)
    case DeleteVersion(id) =>
      id in db.versions && Step(db, s).Done? ==>
        db.versions[id].number
        == MaxOrZero(NumbersIn(db.versions, DefinitionOf, VersionNumber, db.versions[id].definition))
    case _ => true
  }

  lemma VersionNumbersAreTheirs(db: Db, definition: Id)
    ensures VersionNumbers(db, definition) == NumbersIn(db.versions, DefinitionOf, VersionNumber, definition)
  {
    forall n | n in NumbersIn(db.versions, DefinitionOf, VersionNumber, definition) ensures n in VersionNumbers(db, definition) {
      var v :| v in db.versions && DefinitionOf(db.versions[v]) == definition && VersionNumber(db.versions[v]) == n;
    }
    forall n | n in VersionNumbers(db, definition) ensures n in NumbersIn(db.versions, DefinitionOf, VersionNumber, definition) {
      var v :| v in db.versions && db.versions[v].definition == definition && db.versions[v].number == n;
      assert DefinitionOf(db.versions[v]) == definition && VersionNumber(db.versions[v]) == n;
    }
  }

  lemma VersionKeysDiffer(db: Db)
    requires Constraints(db)
    ensures Distinct(db.versions, DefinitionOf, VersionNumber)
  {
    forall v <- db.versions, w <- db.versions | v != w && DefinitionOf(db.versions[v]) == DefinitionOf(db.versions[w])
      ensures VersionNumber(db.versions[v]) != VersionNumber(db.versions[w])
    {
      assert VersionKey(db.versions[v]) != VersionKey(db.versions[w]);
    }
  }

  lemma InsertKeepsVersionNumbers(db: Db, id: Id, row: Version)
    requires VersionsNumbered(db) && AddVersion(db, id, row).Done?
    ensures VersionsNumbered(AddVersion(db, id, row).db)
  {
    hide Constraints, Numbered, VersionNumbers;
    var numbered := row.(number := MaxOrZero(VersionNumbers(db, row.definition)) + 1);
    VersionNumbersAreTheirs(db, row.definition);
    AdditionNumbersIff(db.versions, DefinitionOf, VersionNumber, id, numbered);
  }

  /** A definition takes all its versions along, so the numbers of the others stay. */
  lemma DefinitionDropKeepsNumbers(db: Db, id: Id)
    requires VersionsNumbered(db) && DropDefinition(db, id).Done?
    ensures VersionsNumbered(DropDefinition(db, id).db)
  {
    var next := DropDefinition(db, id).db;
    if id in db.definitions {
      assert next.versions == db.versions - VersionsOf(db, id);
      hide DropDefinition, Numbered;
      GroupRemovalKeepsNumbers(db.versions, next.versions, DefinitionOf, VersionNumber, id);
    }
  }

  lemma VersionChangeNumbersIff(db: Db, id: Id, newId: Id, row: Version)
    requires Inv(db) && VersionsNumbered(db) && id in db.versions && ChangeVersion(db, id, newId, row).Done?
    ensures VersionsNumbered(ChangeVersion(db, id, newId, row).db)
            <==> FitsNumbering(db.versions, DefinitionOf, VersionNumber, db.versions[id], row)
  {
    VersionKeysDiffer(db);
    VersionKeysDiffer(ChangeVersion(db, id, newId, row).db);
    hide Constraints, Numbered, Distinct;
    MoveNumbersIff(db.versions, DefinitionOf, VersionNumber, id, newId, row.(revision := db.versions[id].revision + 1));
  }

  lemma VersionDeleteKeepsNumbersIffLast(db: Db, id: Id)
    requires Inv(db) && VersionsNumbered(db) && id in db.versions && DropVersion(db, id).Done?
    ensures VersionsNumbered(DropVersion(db, id).db)
            <==> db.versions[id].number
                 == MaxOrZero(NumbersIn(db.versions, DefinitionOf, VersionNumber, db.versions[id].definition))
  {
    VersionKeysDiffer(db);
    assert DropVersion(db, id).db.versions == db.versions - {id};
    hide Constraints, Numbered, Distinct, DropVersion;
    RemovalNumbersIff(db.versions, DefinitionOf, VersionNumber, id);
  }

  lemma OtherVersionStatementsSpareNumbers(db: Db, s: Statement)
    requires OnVersionTables(s) && !s.InsertVersion? && !s.UpdateVersion? && !s.DeleteVersion? && !s.DeleteDefinition?
    ensures After(db, s).versions == db.versions
  {
    hide Constraints;
  }

  lemma MissingVersionIsLeft(db: Db, s: Statement)
    requires (s.UpdateVersion? || s.DeleteVersion?) && s.id !in db.versions
    ensures After(db, s) == db
  {
  }

  lemma VersionStatementKeepsNumbersIff(db: Db, s: Statement)
    requires Inv(db) && VersionsNumbered(db) && OnVersionTables(s)
    ensures VersionsNumbered(After(db, s)) <==> SparesVersionNumbers(db, s)
  {
    hide Inv, Numbered, FitsNumbering, AddVersion, ChangeVersion, DropVersion, DropDefinition, ContentStep, RunStep,
         WorkStep;
    if Step(db, s).Done? {
      match s
      case InsertVersion(id, row) => InsertKeepsVersionNumbers(db, id, row);
      case UpdateVersion(id, newId, row) =>
        if id in db.versions { VersionChangeNumbersIff(db, id, newId, row); } else { MissingVersionIsLeft(db, s); }
      case DeleteVersion(id) =>
        if id in db.versions { VersionDeleteKeepsNumbersIffLast(db, id); } else { MissingVersionIsLeft(db, s); }
      case DeleteDefinition(id) => DefinitionDropKeepsNumbers(db, id);
      case _ => OtherVersionStatementsSpareNumbers(db, s);
    }
  }

  /** Of all statements, exactly those that spare the numbers leave the versions of every definition numbered 1..n. */
  lemma StepKeepsVersionNumbersIff(db: Db, s: Statement)
    requires Inv(db) && VersionsNumbered(db)
    ensures VersionsNumbered(After(db, s)) <==> SparesVersionNumbers(db, s)
  {
    if OnVersionTables(s) {
      hide Inv, VersionsNumbered, SparesVersionNumbers, After;
      VersionStatementKeepsNumbersIff(db, s);
    } else if OnContentTables(s) {
      ContentStatementsSpareVersions(db, s);
    } else {
      StepKeepsOneSide(db, s);
      hide Inv, After;
    }
  }

  /** A run keeps the numbering at every step if and only if each of its statements spares it. */
  lemma RunKeepsVersionNumbersIff(db: Db, ss: seq<Statement>)
    requires Inv(db) && VersionsNumbered(db)
    ensures RunSpares(db, ss, SparesVersionNumbers) <==> forall k | 0 <= k <= |ss| :: VersionsNumbered(Run(db, ss[..k]))
  {
    hide Inv, VersionsNumbered, SparesVersionNumbers, After, Run;
    forall d, s | Inv(d) && VersionsNumbered(d) ensures VersionsNumbered(After(d, s)) <==> SparesVersionNumbers(d, s) {
      StepKeepsVersionNumbersIff(d, s);
    }
    RunKeepsThroughoutIff(db, ss, VersionsNumbered, SparesVersionNumbers);
  }

  /** So below every version of a definition there is one of each number. */
  lemma VersionsAreGapless(ss: seq<Statement>, v: Id, k: int)
    requires RunSpares(EMPTY, ss, SparesVersionNumbers) && v in Run(EMPTY, ss).versions
    ensures var db := Run(EMPTY, ss);
            1 <= k <= db.versions[v].number ==>
              exists w <- db.versions :: db.versions[w].definition == db.versions[v].definition && db.versions[w].number == k
  {
    hide Constraints, Step;
    var db := Run(EMPTY, ss);
    ReachableKeepsInv([]);
    assert VersionsNumbered(EMPTY) by {
      forall d ensures NumbersIn(EMPTY.versions, DefinitionOf, VersionNumber, d) == {} {}
    }
    RunKeepsVersionNumbersIff(EMPTY, ss);
    assert ss[..|ss|] == ss;
    var definition := db.versions[v].definition;
    assert VersionNumber(db.versions[v]) in NumbersIn(db.versions, DefinitionOf, VersionNumber, definition);
    if 1 <= k <= db.versions[v].number {
      assert k in NumbersIn(db.versions, DefinitionOf, VersionNumber, definition);
      var w :| w in db.versions && DefinitionOf(db.versions[w]) == definition && VersionNumber(db.versions[w]) == k;
    }
  }
}
