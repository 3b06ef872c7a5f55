/** What the workflow tables promise over every run of INSERT, UPDATE and DELETE statements. */
module WorkflowTheorems {
  import opened Numbering
  import opened Wrappers
  import opened WorkflowSchema
  import opened WorkflowStatements
  import opened WorkflowInvariants

  // ---- Instances and tasks ----

  /** In every reachable database, instances run published versions and a task stays inside its instance's version. */
  lemma ReachableEngineRowsAgree(ss: seq<Statement>)
    ensures var db := Run(EMPTY, ss);
            && (forall i <- db.instances :: IsPublished(db.versions, db.instances[i].version))
            && (forall t <- db.tasks ::
                  var task := db.tasks[t];
                  && task.binding in db.bindings && task.instance in db.instances && task.attempt in db.attempts
                  && db.bindings[task.binding].version == task.version
                  && db.instances[task.instance].version == task.version
                  && db.attempts[task.attempt].version == task.version
                  && NodeOf(db.nodes, db.attempts[task.attempt].node, task.version))
  {
    ReachableKeepsInv(ss);
    var db := Run(EMPTY, ss);
    forall t <- db.tasks
      ensures TaskRowOk(db.bindings, db.instances, db.attempts, db.tasks[t])
      ensures AttemptRowOk(db.nodes, db.instances, db.attempts[db.tasks[t].attempt])
    {
    }
  }

  /** Statements on the engine's tables leave the design tables alone, and the other way round. */
  lemma StepKeepsOneSide(db: Db, s: Statement)
    ensures if OnVersionTables(s) || OnContentTables(s) then SameEngine(db, After(db, s)) else SameDesign(db, After(db, s))
  {
    hide VersionStep, ContentStep, RunStep, WorkStep, OnVersionTables, OnContentTables, OnRunTables;
  }

  /** Nor do statements on nodes, edges and role bindings write the versions or the reviews. */
  lemma ContentStatementsSpareVersions(db: Db, s: Statement)
    requires OnContentTables(s)
    ensures After(db, s).versions == db.versions && After(db, s).reviews == db.reviews
  {
    hide Constraints, ContentFrozen;
  }

  // ---- The publish freeze ----

  function NodesOf(db: Db, v: Id): map<Id, Node> {
    map n | n in db.nodes && db.nodes[n].version == v :: db.nodes[n]
  }

  function EdgesOf(db: Db, v: Id): map<Id, Edge> {
    map e | e in db.edges && db.edges[e].version == v :: db.edges[e]
  }

  function BindingsOf(db: Db, v: Id): map<Id, Binding> {
    map b | b in db.bindings && db.bindings[b].version == v :: db.bindings[b]
  }

  /** The version's row and its exact nodes, edges and role bindings are the same in both databases. */
  ghost predicate SameContent(before: Db, after: Db, v: Id) {
    && v in before.versions && v in after.versions && after.versions[v] == before.versions[v]
    && NodesOf(after, v) == NodesOf(before, v)
    && EdgesOf(after, v) == EdgesOf(before, v)
    && BindingsOf(after, v) == BindingsOf(before, v)
  }

  /** The edges of a version that is kept have both ends in it, so the cascade leaves them. */
  lemma CascadeSparesOthers(db: Db, vs: set<Id>, v: Id)
    requires EdgeConstraints(db.versions, db.nodes, db.edges) && v in db.versions
    ensures v !in vs ==> SameContent(db, WithoutVersions(db, vs), v)
  {
  }

  lemma NodeAddSpares(db: Db, id: Id, row: Node, v: Id)
    requires IsPublished(db.versions, v) && AddNode(db, id, row).Done?
    ensures SameContent(db, AddNode(db, id, row).db, v)
  {
    hide Constraints;
    assert NodesOf(AddNode(db, id, row).db, v) == NodesOf(db, v);
  }

  lemma NodeChangeSpares(db: Db, id: Id, newId: Id, row: Node, v: Id)
    requires IsPublished(db.versions, v) && ChangeNode(db, id, newId, row).Done?
    ensures SameContent(db, ChangeNode(db, id, newId, row).db, v)
  {
    hide Constraints;
    assert NodesOf(ChangeNode(db, id, newId, row).db, v) == NodesOf(db, v);
  }

  lemma NodeDropSpares(db: Db, id: Id, v: Id)
    requires IsPublished(db.versions, v) && DropNode(db, id).Done?
    ensures SameContent(db, DropNode(db, id).db, v)
  {
    var next := DropNode(db, id).db;
    assert EdgesOf(next, v) == EdgesOf(db, v);
    assert NodesOf(next, v) == NodesOf(db, v);
  }

  /** The content guard: no node statement reaches a row of a published version, nor does the cascade to its edges. */
  lemma NodeStatementSparesPublished(db: Db, s: Statement, v: Id)
    requires IsPublished(db.versions, v) && (s.InsertNode? || s.UpdateNode? || s.DeleteNode?)
    ensures SameContent(db, After(db, s), v)
  {
    assert SameContent(db, db, v);
    hide SameContent, AddNode, ChangeNode, DropNode, IsPublished, VersionStep, RunStep, WorkStep;
    if Step(db, s).Done? {
      match s
      case InsertNode(id, row) => NodeAddSpares(db, id, row, v);
      case UpdateNode(id, newId, row) => NodeChangeSpares(db, id, newId, row, v);
      case DeleteNode(id) => NodeDropSpares(db, id, v);
    }
  }

  lemma EdgeStatementSparesPublished(db: Db, s: Statement, v: Id)
    requires IsPublished(db.versions, v) && (s.InsertEdge? || s.UpdateEdge? || s.DeleteEdge?)
    ensures SameContent(db, After(db, s), v)
  {
    hide Constraints, VersionDeleteRefused, MaxOrZero, WithoutVersions;
    assert EdgesOf(After(db, s), v) == EdgesOf(db, v);
  }

  lemma BindingStatementSparesPublished(db: Db, s: Statement, v: Id)
    requires IsPublished(db.versions, v) && (s.InsertBinding? || s.UpdateBinding? || s.DeleteBinding?)
    ensures SameContent(db, After(db, s), v)
  {
    hide Constraints, VersionDeleteRefused, MaxOrZero, WithoutVersions;
    assert BindingsOf(After(db, s), v) == BindingsOf(db, v);
  }

  lemma VersionCascadesSparePublished(db: Db, s: Statement, v: Id)
    requires EdgeConstraints(db.versions, db.nodes, db.edges)
    requires IsPublished(db.versions, v) && (s.DeleteDefinition? || s.DeleteVersion?)
    ensures SameContent(db, After(db, s), v)
  {
    hide EdgeConstraints;
    CascadeSparesOthers(db, if s.DeleteVersion? then {s.id} else VersionsOf(db, s.id), v);
  }

  /** A published version row is not updated, and an insert takes another key. */
  lemma VersionWriteSparesPublished(db: Db, s: Statement, v: Id)
    requires IsPublished(db.versions, v) && (s.InsertVersion? || s.UpdateVersion?)
    ensures SameContent(db, After(db, s), v)
  {
    hide Constraints, VersionNumbers, MaxOrZero;
    assert After(db, s) == db.(versions := After(db, s).versions);
    hide Step;
  }

  /** Statements on definitions and reviews, but for deleting a definition, leave the versions' content alone. */
  lemma OtherStatementsSparePublished(db: Db, s: Statement, v: Id)
    requires s.InsertDefinition? || s.UpdateDefinition? || s.InsertReview? || s.UpdateReview? || s.DeleteReview?
    requires v in db.versions
    ensures SameContent(db, After(db, s), v)
  {
    hide Constraints, SameContent, Moved, DropDefinition, AddVersion, ChangeVersion, DropVersion, ContentStep,
         RunStep, WorkStep;
    assert SameDesign(db, After(db, s).(reviews := db.reviews));
    SameDesignSameContent(db, After(db, s), v);
  }

  lemma SameDesignSameContent(before: Db, after: Db, v: Id)
    requires SameDesign(before, after.(reviews := before.reviews)) && v in before.versions
    ensures SameContent(before, after, v)
  {
  }

  lemma StepKeepsPublished(db: Db, s: Statement, v: Id)
    requires Inv(db) && IsPublished(db.versions, v)
    ensures SameContent(db, After(db, s), v)
  {
    assert EdgeConstraints(db.versions, db.nodes, db.edges) && v in db.versions;
    hide Inv, After, SameDesign, SameContent;
    if s.InsertNode? || s.UpdateNode? || s.DeleteNode? {
      NodeStatementSparesPublished(db, s, v);
    } else if s.InsertEdge? || s.UpdateEdge? || s.DeleteEdge? {
      EdgeStatementSparesPublished(db, s, v);
    } else if s.InsertBinding? || s.UpdateBinding? || s.DeleteBinding? {
      BindingStatementSparesPublished(db, s, v);
    } else if s.DeleteDefinition? || s.DeleteVersion? {
      VersionCascadesSparePublished(db, s, v);
    } else if s.InsertVersion? || s.UpdateVersion? {
      VersionWriteSparesPublished(db, s, v);
    } else if !OnVersionTables(s) && !OnContentTables(s) {
      StepKeepsOneSide(db, s);
      SameDesignSameContent(db, After(db, s), v);
    } else {
      OtherStatementsSparePublished(db, s, v);
    }
  }

  /** Once published, a version's row and content are the same after any run of statements. */
  lemma {:induction false} PublishFreeze(db: Db, ss: seq<Statement>, v: Id)
    requires Inv(db) && IsPublished(db.versions, v)
    ensures SameContent(db, Run(db, ss), v)
    decreases |ss|
  {
    if ss != [] {
      StepKeepsInv(db, ss[0]);
      StepKeepsPublished(db, ss[0], v);
      PublishFreeze(After(db, ss[0]), ss[1..], v);
    }
  }

  lemma VersionStatementKeepsReviews(db: Db, s: Statement, r: Id)
    requires OnVersionTables(s) && r in db.reviews
    ensures r in After(db, s).reviews && After(db, s).reviews[r] == db.reviews[r]
  {
    hide Constraints, VersionDeleteRefused, MaxOrZero, ContentStep, RunStep, WorkStep;
  }

  lemma StepKeepsReviews(db: Db, s: Statement, r: Id)
    requires r in db.reviews
    ensures r in After(db, s).reviews && After(db, s).reviews[r] == db.reviews[r]
  {
    hide After;
    if OnVersionTables(s) {
      VersionStatementKeepsReviews(db, s, r);
    } else if OnContentTables(s) {
      ContentStatementsSpareVersions(db, s);
    } else {
      StepKeepsOneSide(db, s);
    }
  }

  /** A review row is permanent, and so is the version it reviews. */
  lemma {:induction false} ReviewedVersionStays(db: Db, ss: seq<Statement>, r: Id)
    requires Inv(db) && r in db.reviews
    ensures r in Run(db, ss).reviews && Run(db, ss).reviews[r] == db.reviews[r]
    ensures db.reviews[r].version in Run(db, ss).versions
    decreases |ss|
  {
    if ss != [] {
      StepKeepsInv(db, ss[0]);
      StepKeepsReviews(db, ss[0], r);
      ReviewedVersionStays(After(db, ss[0]), ss[1..], r);
    }
  }

  // ---- The event log ----

  lemma StepAppendsEvents(db: Db, s: Statement)
    ensures db.events <= After(db, s).events
  {
  }

  lemma {:induction false} RunAppendsEvents(db: Db, ss: seq<Statement>)
    ensures db.events <= Run(db, ss).events
    decreases |ss|
  {
    if ss != [] {
      StepAppendsEvents(db, ss[0]);
      RunAppendsEvents(After(db, ss[0]), ss[1..]);
    }
  }

  /** Events are never altered, removed or reordered, and they hold their instance in place. */
  lemma EventLogIsAppendOnly(before: seq<Statement>, after: seq<Statement>, k: nat)
    requires k < |Run(EMPTY, before).events|
    ensures var db, next := Run(EMPTY, before), Run(Run(EMPTY, before), after);
            && k < |next.events| && next.events[k] == db.events[k]
            && next.events[k].instance in next.instances
  {
    hide DefinitionConstraints, VersionConstraints, ReviewConstraints, NodeConstraints, EdgeConstraints,
         BindingConstraints, InstanceConstraints, AttemptConstraints, TaskConstraints, Step;
    var db := Run(EMPTY, before);
    ReachableKeepsInv(before);
    RunAppendsEvents(db, after);
    RunKeepsInv(db, after);
    var next := Run(db, after);
    assert next.events[k] in next.events && EventRowOk(next.instances, next.attempts, next.events[k]);
  }

  /** Whatever was refused on the way, the events of an instance are numbered 1, 2, ... n as inserted. */
  lemma EventNumbersAreGapless(ss: seq<Statement>, instance: Id, k: nat)
    requires k < |LogOf(Run(EMPTY, ss).events, instance)|
    ensures LogOf(Run(EMPTY, ss).events, instance)[k].sequence == k + 1
  {
    hide Constraints, LogOf, Step, InstancesRunPublished, TasksBoundInVersion;
    ReachableKeepsInv(ss);
    assert Sequenced(LogOf(Run(EMPTY, ss).events, instance));
  }

  /** A key the instance has used is refused, and a refusal consumes no number. */
  lemma UsedEventKeyIsRefused(db: Db, row: Event)
    requires exists e <- db.events :: e.instance == row.instance && e.idempotencyKey == row.idempotencyKey
    ensures After(db, InsertEvent(row)) == db
  {
    var k :| 0 <= k < |db.events| && db.events[k].instance == row.instance && db.events[k].idempotencyKey == row.idempotencyKey;
    var events := db.events + [row.(sequence := MaxOrZero(SequenceNumbers(db.events, row.instance)) + 1)];
    assert !EventsDistinct(events) by {
      assert events[k].instance == events[|db.events|].instance;
    }
    hide EventsDistinct;
  }

  /** An insert that commits appends the event with the number after the instance's last one. */
  lemma EventInsertTakesNextNumber(db: Db, row: Event)
    requires Inv(db) && AddEvent(db, row).Done?
    ensures LogOf(AddEvent(db, row).db.events, row.instance)
            == LogOf(db.events, row.instance) + [row.(sequence := |LogOf(db.events, row.instance)| + 1)]
  {
    NextSequence(db.events, row.instance);
    hide Constraints;
    assert AddEvent(db, row).db.events[..|db.events|] == db.events;
  }

  // ---- One statement ----

  /** What a user of the tables can rely on, whatever statement ran: the rules hold, and what is permanent is still there. */
  ghost predicate Lawful(before: Db, after: Db) {
    && Inv(after)
    && (forall v <- before.versions | IsPublished(before.versions, v) :: SameContent(before, after, v))
    && (forall r <- before.reviews :: r in after.reviews && after.reviews[r] == before.reviews[r])
    && before.events <= after.events
  }

  lemma StepIsLawful(db: Db, s: Statement)
    ensures Inv(db) ==> Lawful(db, After(db, s))
  {
    hide Inv, IsPublished, SameContent, After;
    if Inv(db) {
      StepKeepsInv(db, s);
      forall v <- db.versions | IsPublished(db.versions, v) ensures SameContent(db, After(db, s), v) {
        StepKeepsPublished(db, s, v);
      }
      forall r <- db.reviews ensures r in After(db, s).reviews && After(db, s).reviews[r] == db.reviews[r] {
        StepKeepsReviews(db, s, r);
      }
      StepAppendsEvents(db, s);
    }
  }
}
