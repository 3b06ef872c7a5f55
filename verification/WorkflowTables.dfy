/**
 The workflow tables as the database holds them, with the PL/pgSQL triggers, cascades and
 constraint checks run step by step. Every method is one statement: it returns whether it
 committed, and a statement that raises leaves every table as it was.
 */
module WorkflowTables {
  import opened Numbering
  import opened Wrappers
  import opened WorkflowSchema
  import opened WorkflowStatements
  import opened WorkflowInvariants
  import opened WorkflowEffects
  import opened WorkflowTheorems

  /** The statement's outcome: committed or not, and the tables it leaves. */
  ghost predicate Performed(before: Db, s: Statement, ok: bool, after: Db) {
    ok == Step(before, s).Done? && after == After(before, s)
  }

  /** The statement commits exactly when it may, leaves exactly what it says or nothing, and keeps what is permanent. */
  ghost predicate Governed(before: Db, s: Statement, ok: bool, after: Db) {
    && ok == Commits(before, s) && (if ok then Leaves(before, s, after) else after == before)
    && Lawful(before, after)
  }

  lemma StepIsGoverned(db: Db, s: Statement)
    ensures Inv(db) ==> Governed(db, s, Step(db, s).Done?, After(db, s))
  {
    hide Inv, Lawful, Commits, Leaves, Step, After;
    if Inv(db) {
      StepIsLawful(db, s);
      StatementEffect(db, s);
    }
  }

  // ---- Cascades, row by row ----

  lemma TouchSplits(db: Db, done: set<Id>, v: Id, e: Edge)
    ensures TouchesVersions(db, e, done + {v})
            <==> TouchesVersions(db, e, done) || TouchesVersions(WithoutVersions(db, done), e, {v})
  {
  }

  lemma CascadeSplits(db: Db, done: set<Id>, v: Id)
    ensures WithoutVersions(WithoutVersions(db, done), {v}) == WithoutVersions(db, done + {v})
  {
    var part, all := WithoutVersions(db, done), WithoutVersions(db, done + {v});
    forall e <- db.edges
      ensures TouchesVersions(db, db.edges[e], done + {v})
              <==> TouchesVersions(db, db.edges[e], done) || TouchesVersions(part, db.edges[e], {v})
    {
      TouchSplits(db, done, v, db.edges[e]);
    }
    hide TouchesVersions;
    assert WithoutVersions(part, {v}).versions == all.versions;
    assert WithoutVersions(part, {v}).nodes == all.nodes;
    assert WithoutVersions(part, {v}).bindings == all.bindings;
    assert WithoutVersions(part, {v}).edges == all.edges;
  }

  lemma HeldAfterCascade(db: Db, done: set<Id>, v: Id)
    requires v !in done
    ensures VersionRowHeld(WithoutVersions(db, done), v) <==> VersionRowHeld(db, v)
  {
  }

  /** The edges that neither start nor end at these nodes. */
  function EdgesAvoiding(edges: map<Id, Edge>, gone: set<Id>): map<Id, Edge> {
    map e | e in edges && edges[e].source !in gone && edges[e].target !in gone :: edges[e]
  }

  function NodeIdsOf(nodes: map<Id, Node>, v: Id): set<Id> {
    set n | n in nodes && nodes[n].version == v
  }

  function EdgesOutside(edges: map<Id, Edge>, v: Id): map<Id, Edge> {
    map e | e in edges && edges[e].version != v :: edges[e]
  }

  function BindingsOutside(bindings: map<Id, Binding>, v: Id): map<Id, Binding> {
    map b | b in bindings && bindings[b].version != v :: bindings[b]
  }

  /** The cascades that reach a version's content by different keys together remove exactly that content. */
  lemma CascadesRemoveContent(db: Db, v: Id)
    ensures EdgesOutside(EdgesAvoiding(db.edges, NodeIdsOf(db.nodes, v)), v) == WithoutVersions(db, {v}).edges
    ensures BindingsOutside(db.bindings, v) == WithoutVersions(db, {v}).bindings
  {
  }

  /** The node cascade of one version: each node takes its edges with it, unless an attempt restricts it. */
  method CascadeNodes(db: Db, v: Id) returns (raised: bool, nodes: map<Id, Node>, edges: map<Id, Edge>)
    ensures raised <==> exists a <- db.attempts :: NodeOf(db.nodes, db.attempts[a].node, v)
    ensures !raised ==> nodes == WithoutVersions(db, {v}).nodes
    ensures !raised ==> edges == EdgesAvoiding(db.edges, NodeIdsOf(db.nodes, v))
  {
    nodes, edges := db.nodes, db.edges;
    ghost var all := NodeIdsOf(db.nodes, v);
    var pending := NodeIdsOf(db.nodes, v);
    while pending != {}
      invariant pending <= all
      invariant nodes == db.nodes - (all - pending)
      invariant edges == EdgesAvoiding(db.edges, all - pending)
      invariant forall a <- db.attempts :: db.attempts[a].node !in all - pending
      decreases pending
    {
      var n :| n in pending;
      if exists a <- db.attempts :: db.attempts[a].node == n {
        ghost var a :| a in db.attempts && db.attempts[a].node == n;
        assert NodeOf(db.nodes, db.attempts[a].node, v);
        return true, nodes, edges;
      }
      assert all - (pending - {n}) == all - pending + {n};
      nodes := nodes - {n};
      edges := EdgesAvoiding(edges, {n});
      pending := pending - {n};
    }
    assert nodes == WithoutVersions(db, {v}).nodes;
    raised := false;
  }

  /**
   DELETE of one version row: the immutability trigger, then its foreign keys. A review's
   trigger always raises, instances and attempts and tasks restrict, content cascades.
   */
  method DeleteVersionRow(db: Db, v: Id) returns (raised: bool, next: Db)
    requires v in db.versions
    ensures raised <==> VersionRowHeld(db, v)
    ensures !raised ==> next == WithoutVersions(db, {v})
  {
    next := db;
    raised := db.versions[v].publication.Published?
              || (exists r <- db.reviews :: db.reviews[r].version == v)
              || (exists i <- db.instances :: db.instances[i].version == v);
    if raised { return; }
    var nodes, edges;
    raised, nodes, edges := CascadeNodes(db, v);
    if raised { return; }
    raised := exists t <- db.tasks :: BindingOf(db, db.tasks[t].binding, v);
    if raised { return; }
    CascadesRemoveContent(db, v);
    hide *;
    next := db.(versions := db.versions - {v}, nodes := nodes,
                edges := EdgesOutside(edges, v), bindings := BindingsOutside(db.bindings, v));
    assert next == WithoutVersions(db, {v}) by { assert WithoutVersions(db, {v}).versions == db.versions - {v}; }
  }

  /** The version cascade of a definition delete, one version at a time. */
  method DeleteVersionRows(db: Db, vs: set<Id>) returns (raised: bool, next: Db)
    requires vs <= db.versions.Keys
    ensures raised <==> VersionDeleteRefused(db, vs)
    ensures !raised ==> next == WithoutVersions(db, vs)
  {
    hide VersionRowHeld;
    next := db;
    var pending := vs;
    assert WithoutVersions(db, {}) == db;
    while pending != {}
      invariant pending <= vs
      invariant next == WithoutVersions(db, vs - pending)
      invariant forall v <- vs - pending :: !VersionRowHeld(db, v)
      decreases pending
    {
      var v :| v in pending;
      CascadeSplits(db, vs - pending, v);
      HeldAfterCascade(db, vs - pending, v);
      assert vs - pending + {v} == vs - (pending - {v});
      raised, next := DeleteVersionRow(next, v);
      if raised { return; }
      pending := pending - {v};
    }
    assert vs - pending == vs;
    raised := false;
  }

  // ---- The database ----

  class WorkflowStore {
    var definitions: map<Id, Definition>
    var versions: map<Id, Version>
    var reviews: map<Id, Review>
    var nodes: map<Id, Node>
    var edges: map<Id, Edge>
    var bindings: map<Id, Binding>
    var instances: map<Id, Instance>
    var attempts: map<Id, Attempt>
    var tasks: map<Id, Task>
    var events: seq<Event>

    function Tables(): Db
      reads this
    {
      Db(definitions, versions, reviews, nodes, edges, bindings, instances, attempts, tasks, events)
    }

    constructor ()
      ensures Tables() == EMPTY && Inv(Tables())
    {
      definitions, versions, reviews := map[], map[], map[];
      nodes, edges, bindings := map[], map[], map[];
      instances, attempts, tasks, events := map[], map[], map[], [];
    }

    method Write(next: Db)
      modifies this
      ensures Tables() == next
    {
      definitions, versions, reviews := next.definitions, next.versions, next.reviews;
      nodes, edges, bindings := next.nodes, next.edges, next.bindings;
      instances, attempts, tasks, events := next.instances, next.attempts, next.tasks, next.events;
    }

    /** The end of a writing statement: declared constraints decide whether it stays. */
    method CommitWrite(next: Db) returns (ok: bool)
      modifies this
      ensures ok == Commit(next).Done?
      ensures Tables() == if ok then next else old(Tables())
    {
      ok := Constraints(next);
      if ok { Write(next); }
    }

    // Trigger functions

    /** workflow_guard_version_content: looks up the status of the versions left and entered. */
    method ContentGuardRaises(before: Option<Id>, after: Option<Id>) returns (raised: bool)
      ensures raised <==> ContentFrozen(Tables(), before, after)
    {
      var oldStatus: Option<Publication>, newStatus: Option<Publication> := None, None;
      if before.Some? && before.value in versions { oldStatus := Some(versions[before.value].publication); }
      if after.Some? && after.value in versions { newStatus := Some(versions[after.value].publication); }
      raised := (oldStatus.Some? && oldStatus.value.Published?) || (newStatus.Some? && newStatus.value.Published?);
    }

    /** workflow_assign_version_number */
    method NextVersionNumber(definition: Id) returns (number: int)
      ensures number == MaxOrZero(VersionNumbers(Tables(), definition)) + 1
    {
      var found, largest, pending := false, 0, versions.Keys;
      ghost var seen: set<int> := {};
      while pending != {}
        invariant pending <= versions.Keys
        invariant seen == set v | v in versions.Keys - pending && versions[v].definition == definition :: versions[v].number
        invariant largest == MaxOrZero(seen) && (found <==> seen != {})
        decreases pending
      {
        var v :| v in pending;
        pending := pending - {v};
        if versions[v].definition == definition {
          MaxOfAdded(seen, versions[v].number);
          if !found || versions[v].number > largest { largest := versions[v].number; }
          found, seen := true, seen + {versions[v].number};
        }
      }
      assert seen == VersionNumbers(Tables(), definition);
      number := largest + 1;
    }

    /** workflow_assign_node_attempt */
    method NextAttemptNumber(instance: Id, node: Id) returns (number: int)
      ensures number == MaxOrZero(AttemptNumbers(Tables(), instance, node)) + 1
    {
      var found, largest, pending := false, 0, attempts.Keys;
      ghost var seen: set<int> := {};
      while pending != {}
        invariant pending <= attempts.Keys
        invariant seen == set a | a in attempts.Keys - pending && attempts[a].instance == instance && attempts[a].node == node
                            :: attempts[a].attempt
        invariant largest == MaxOrZero(seen) && (found <==> seen != {})
        decreases pending
      {
        var a :| a in pending;
        pending := pending - {a};
        if attempts[a].instance == instance && attempts[a].node == node {
          MaxOfAdded(seen, attempts[a].attempt);
          if !found || attempts[a].attempt > largest { largest := attempts[a].attempt; }
          found, seen := true, seen + {attempts[a].attempt};
        }
      }
      assert seen == AttemptNumbers(Tables(), instance, node);
      number := largest + 1;
    }

    /** workflow_assign_event_sequence */
    method NextEventNumber(instance: Id) returns (number: int)
      ensures number == MaxOrZero(SequenceNumbers(events, instance)) + 1
    {
      var found, largest := false, 0;
      ghost var seen: set<int> := {};
      for k := 0 to |events|
        invariant seen == set j | 0 <= j < k && events[j].instance == instance :: events[j].sequence
        invariant largest == MaxOrZero(seen) && (found <==> seen != {})
      {
        if events[k].instance == instance {
          MaxOfAdded(seen, events[k].sequence);
          if !found || events[k].sequence > largest { largest := events[k].sequence; }
          found, seen := true, seen + {events[k].sequence};
        }
      }
      number := largest + 1;
    }

    // Statements

    method InsertDefinition(id: Id, row: Definition) returns (ok: bool)
      modifies this
      ensures Performed(old(Tables()), Statement.InsertDefinition(id, row), ok, Tables())
      ensures Inv(old(Tables())) ==> Governed(old(Tables()), Statement.InsertDefinition(id, row), ok, Tables())
    {
      StepIsGoverned(Tables(), Statement.InsertDefinition(id, row));
      hide Constraints, Inv, Governed;
      if id in definitions { return false; }
      ok := CommitWrite(Tables().(definitions := definitions[id := row]));
    }

    method UpdateDefinition(id: Id, newId: Id, row: Definition) returns (ok: bool)
      modifies this
      ensures Performed(old(Tables()), Statement.UpdateDefinition(id, newId, row), ok, Tables())
      ensures Inv(old(Tables())) ==> Governed(old(Tables()), Statement.UpdateDefinition(id, newId, row), ok, Tables())
    {
      StepIsGoverned(Tables(), Statement.UpdateDefinition(id, newId, row));
      hide Constraints, Inv, Governed;
      if id !in definitions { return true; }
      if newId != id && newId in definitions { return false; }
      ok := CommitWrite(Tables().(definitions := Moved(definitions, id, newId, row)));
    }

    /** The versions go with the definition, each through its own triggers. */
    method DeleteDefinition(id: Id) returns (ok: bool)
      modifies this
      ensures Performed(old(Tables()), Statement.DeleteDefinition(id), ok, Tables())
      ensures Inv(old(Tables())) ==> Governed(old(Tables()), Statement.DeleteDefinition(id), ok, Tables())
    {
      StepIsGoverned(Tables(), Statement.DeleteDefinition(id));
      hide Constraints, Inv, Governed;
      if id !in definitions { return true; }
      hide VersionDeleteRefused, WithoutVersions;
      var raised, next := DeleteVersionRows(Tables(), VersionsOf(Tables(), id));
      if raised { return false; }
      Write(next.(definitions := definitions - {id}));
      ok := true;
    }

    method InsertVersion(id: Id, row: Version) returns (ok: bool)
      modifies this
      ensures Performed(old(Tables()), Statement.InsertVersion(id, row), ok, Tables())
      ensures Inv(old(Tables())) ==> Governed(old(Tables()), Statement.InsertVersion(id, row), ok, Tables())
    {
      StepIsGoverned(Tables(), Statement.InsertVersion(id, row));
      hide Constraints, Inv, Governed;
      if id in versions { return false; }
      var number := NextVersionNumber(row.definition);
      ok := CommitWrite(Tables().(versions := versions[id := row.(number := number)]));
    }

    /** workflow_guard_version_immutability numbers the revision of a draft and refuses a published row. */
    method UpdateVersion(id: Id, newId: Id, row: Version) returns (ok: bool)
      modifies this
      ensures Performed(old(Tables()), Statement.UpdateVersion(id, newId, row), ok, Tables())
      ensures Inv(old(Tables())) ==> Governed(old(Tables()), Statement.UpdateVersion(id, newId, row), ok, Tables())
    {
      StepIsGoverned(Tables(), Statement.UpdateVersion(id, newId, row));
      hide Constraints, Inv, Governed;
      if id !in versions { return true; }
      if versions[id].publication.Published? { return false; }
      var written := row.(revision := versions[id].revision + 1);
      if newId != id && newId in versions { return false; }
      ok := CommitWrite(Tables().(versions := Moved(versions, id, newId, written)));
    }

    method DeleteVersion(id: Id) returns (ok: bool)
      modifies this
      ensures Performed(old(Tables()), Statement.DeleteVersion(id), ok, Tables())
      ensures Inv(old(Tables())) ==> Governed(old(Tables()), Statement.DeleteVersion(id), ok, Tables())
    {
      StepIsGoverned(Tables(), Statement.DeleteVersion(id));
      hide Constraints, Inv, Governed;
      if id !in versions { return true; }
      hide WithoutVersions;
      var raised, next := DeleteVersionRow(Tables(), id);
      if raised { return false; }
      Write(next);
      ok := true;
    }

    method InsertReview(id: Id, row: Review) returns (ok: bool)
      modifies this
      ensures Performed(old(Tables()), Statement.InsertReview(id, row), ok, Tables())
      ensures Inv(old(Tables())) ==> Governed(old(Tables()), Statement.InsertReview(id, row), ok, Tables())
    {
      StepIsGoverned(Tables(), Statement.InsertReview(id, row));
      hide Constraints, Inv, Governed;
      if id in reviews { return false; }
      ok := CommitWrite(Tables().(reviews := reviews[id := row]));
    }

    /** workflow_guard_review_immutability raises for every row an UPDATE reaches. */
    method UpdateReview(id: Id, newId: Id, row: Review) returns (ok: bool)
      modifies this
      ensures Performed(old(Tables()), Statement.UpdateReview(id, newId, row), ok, Tables())
      ensures Inv(old(Tables())) ==> Governed(old(Tables()), Statement.UpdateReview(id, newId, row), ok, Tables())
    {
      StepIsGoverned(Tables(), Statement.UpdateReview(id, newId, row));
      hide Constraints, Inv, Governed;
      ok := id !in reviews;
    }

    method DeleteReview(id: Id) returns (ok: bool)
      modifies this
      ensures Performed(old(Tables()), Statement.DeleteReview(id), ok, Tables())
      ensures Inv(old(Tables())) ==> Governed(old(Tables()), Statement.DeleteReview(id), ok, Tables())
    {
      StepIsGoverned(Tables(), Statement.DeleteReview(id));
      hide Constraints, Inv, Governed;
      ok := id !in reviews;
    }

    method InsertNode(id: Id, row: Node) returns (ok: bool)
      modifies this
      ensures Performed(old(Tables()), Statement.InsertNode(id, row), ok, Tables())
      ensures Inv(old(Tables())) ==> Governed(old(Tables()), Statement.InsertNode(id, row), ok, Tables())
    {
      StepIsGoverned(Tables(), Statement.InsertNode(id, row));
      hide Constraints, Inv, Governed;
      var raised := ContentGuardRaises(None, Some(row.version));
      if raised || id in nodes { return false; }
      ok := CommitWrite(Tables().(nodes := nodes[id := row]));
    }

    method UpdateNode(id: Id, newId: Id, row: Node) returns (ok: bool)
      modifies this
      ensures Performed(old(Tables()), Statement.UpdateNode(id, newId, row), ok, Tables())
      ensures Inv(old(Tables())) ==> Governed(old(Tables()), Statement.UpdateNode(id, newId, row), ok, Tables())
    {
      StepIsGoverned(Tables(), Statement.UpdateNode(id, newId, row));
      hide Constraints, Inv, Governed;
      if id !in nodes { return true; }
      var raised := ContentGuardRaises(Some(nodes[id].version), Some(row.version));
      if raised || (newId != id && newId in nodes) { return false; }
      ok := CommitWrite(Tables().(nodes := Moved(nodes, id, newId, row)));
    }

    /** The cascade from a node to its edges: the content guard runs for each of them. */
    method EdgeCascadeRaises(node: Id) returns (raised: bool)
      ensures raised <==> exists e <- EdgesAt(Tables(), node) :: ContentFrozen(Tables(), Some(edges[e].version), None)
    {
      var pending := EdgesAt(Tables(), node);
      while pending != {}
        invariant pending <= EdgesAt(Tables(), node)
        invariant forall e <- EdgesAt(Tables(), node) - pending :: !ContentFrozen(Tables(), Some(edges[e].version), None)
        decreases pending
      {
        var e :| e in pending;
        raised := ContentGuardRaises(Some(edges[e].version), None);
        if raised { return; }
        pending := pending - {e};
      }
      raised := false;
    }

    /** The node's edges cascade, and each fires the content guard for its own version. */
    method DeleteNode(id: Id) returns (ok: bool)
      modifies this
      ensures Performed(old(Tables()), Statement.DeleteNode(id), ok, Tables())
      ensures Inv(old(Tables())) ==> Governed(old(Tables()), Statement.DeleteNode(id), ok, Tables())
    {
      StepIsGoverned(Tables(), Statement.DeleteNode(id));
      hide Constraints, Inv, Governed;
      assert Step(Tables(), Statement.DeleteNode(id)) == DropNode(Tables(), id);
      hide Step;
      if id !in nodes { return true; }
      var raised := ContentGuardRaises(Some(nodes[id].version), None);
      if raised { return false; }
      raised := EdgeCascadeRaises(id);
      if raised { return false; }
      if exists a <- attempts :: attempts[a].node == id { return false; }
      hide EdgesAt, ContentFrozen;
      Write(Tables().(nodes := nodes - {id}, edges := edges - EdgesAt(Tables(), id)));
      ok := true;
    }

    method InsertEdge(id: Id, row: Edge) returns (ok: bool)
      modifies this
      ensures Performed(old(Tables()), Statement.InsertEdge(id, row), ok, Tables())
      ensures Inv(old(Tables())) ==> Governed(old(Tables()), Statement.InsertEdge(id, row), ok, Tables())
    {
      StepIsGoverned(Tables(), Statement.InsertEdge(id, row));
      hide Constraints, Inv, Governed;
      var raised := ContentGuardRaises(None, Some(row.version));
      if raised || id in edges { return false; }
      ok := CommitWrite(Tables().(edges := edges[id := row]));
    }

    method UpdateEdge(id: Id, newId: Id, row: Edge) returns (ok: bool)
      modifies this
      ensures Performed(old(Tables()), Statement.UpdateEdge(id, newId, row), ok, Tables())
      ensures Inv(old(Tables())) ==> Governed(old(Tables()), Statement.UpdateEdge(id, newId, row), ok, Tables())
    {
      StepIsGoverned(Tables(), Statement.UpdateEdge(id, newId, row));
      hide Constraints, Inv, Governed;
      if id !in edges { return true; }
      var raised := ContentGuardRaises(Some(edges[id].version), Some(row.version));
      if raised || (newId != id && newId in edges) { return false; }
      ok := CommitWrite(Tables().(edges := Moved(edges, id, newId, row)));
    }

    method DeleteEdge(id: Id) returns (ok: bool)
      modifies this
      ensures Performed(old(Tables()), Statement.DeleteEdge(id), ok, Tables())
      ensures Inv(old(Tables())) ==> Governed(old(Tables()), Statement.DeleteEdge(id), ok, Tables())
    {
      StepIsGoverned(Tables(), Statement.DeleteEdge(id));
      hide Constraints, Inv, Governed;
      if id !in edges { return true; }
      var raised := ContentGuardRaises(Some(edges[id].version), None);
      if raised { return false; }
      edges := edges - {id};
      ok := true;
    }

    method InsertBinding(id: Id, row: Binding) returns (ok: bool)
      modifies this
      ensures Performed(old(Tables()), Statement.InsertBinding(id, row), ok, Tables())
      ensures Inv(old(Tables())) ==> Governed(old(Tables()), Statement.InsertBinding(id, row), ok, Tables())
    {
      StepIsGoverned(Tables(), Statement.InsertBinding(id, row));
      hide Constraints, Inv, Governed;
      var raised := ContentGuardRaises(None, Some(row.version));
      if raised || id in bindings { return false; }
      ok := CommitWrite(Tables().(bindings := bindings[id := row]));
    }

    method UpdateBinding(id: Id, newId: Id, row: Binding) returns (ok: bool)
      modifies this
      ensures Performed(old(Tables()), Statement.UpdateBinding(id, newId, row), ok, Tables())
      ensures Inv(old(Tables())) ==> Governed(old(Tables()), Statement.UpdateBinding(id, newId, row), ok, Tables())
    {
      StepIsGoverned(Tables(), Statement.UpdateBinding(id, newId, row));
      hide Constraints, Inv, Governed;
      if id !in bindings { return true; }
      var raised := ContentGuardRaises(Some(bindings[id].version), Some(row.version));
      if raised || (newId != id && newId in bindings) { return false; }
      ok := CommitWrite(Tables().(bindings := Moved(bindings, id, newId, row)));
    }

    method DeleteBinding(id: Id) returns (ok: bool)
      modifies this
      ensures Performed(old(Tables()), Statement.DeleteBinding(id), ok, Tables())
      ensures Inv(old(Tables())) ==> Governed(old(Tables()), Statement.DeleteBinding(id), ok, Tables())
    {
      StepIsGoverned(Tables(), Statement.DeleteBinding(id));
      hide Constraints, Inv, Governed;
      if id !in bindings { return true; }
      var raised := ContentGuardRaises(Some(bindings[id].version), None);
      if raised || exists t <- tasks :: tasks[t].binding == id { return false; }
      bindings := bindings - {id};
      ok := true;
    }

    /** workflow_require_published_version runs on every insert, and on an update that sets the version. */
    method InsertInstance(id: Id, row: Instance) returns (ok: bool)
      modifies this
      ensures Performed(old(Tables()), Statement.InsertInstance(id, row), ok, Tables())
      ensures Inv(old(Tables())) ==> Governed(old(Tables()), Statement.InsertInstance(id, row), ok, Tables())
    {
      StepIsGoverned(Tables(), Statement.InsertInstance(id, row));
      hide Constraints, Inv, Governed;
      if !(row.version in versions && versions[row.version].publication.Published?) || id in instances { return false; }
      ok := CommitWrite(Tables().(instances := instances[id := row]));
    }

    method UpdateInstance(id: Id, newId: Id, row: Instance, setsVersion: bool) returns (ok: bool)
      modifies this
      ensures Performed(old(Tables()), Statement.UpdateInstance(id, newId, row, setsVersion), ok, Tables())
      ensures Inv(old(Tables())) ==> Governed(old(Tables()), Statement.UpdateInstance(id, newId, row, setsVersion), ok, Tables())
    {
      StepIsGoverned(Tables(), Statement.UpdateInstance(id, newId, row, setsVersion));
      hide Constraints, Inv, Governed;
      if id !in instances { return true; }
      var written := row;
      if setsVersion {
        if !(row.version in versions && versions[row.version].publication.Published?) { return false; }
      } else {
        written := row.(version := instances[id].version);
      }
      if newId != id && newId in instances { return false; }
      ok := CommitWrite(Tables().(instances := Moved(instances, id, newId, written)));
    }

    /** An event of the instance, or of one of these attempts, is in the log. */
    method HasEvents(instance: Id, gone: set<Id>) returns (found: bool)
      ensures found <==> exists e <- events :: e.instance == instance || (e.attempt.Some? && e.attempt.value in gone)
    {
      for k := 0 to |events|
        invariant forall j | 0 <= j < k ::
          events[j].instance != instance && !(events[j].attempt.Some? && events[j].attempt.value in gone)
      {
        if events[k].instance == instance || (events[k].attempt.Some? && events[k].attempt.value in gone) { return true; }
      }
      found := false;
    }

    /** Attempts and tasks cascade; an event of the instance raises as append-only. */
    method DeleteInstance(id: Id) returns (ok: bool)
      modifies this
      ensures Performed(old(Tables()), Statement.DeleteInstance(id), ok, Tables())
      ensures Inv(old(Tables())) ==> Governed(old(Tables()), Statement.DeleteInstance(id), ok, Tables())
    {
      StepIsGoverned(Tables(), Statement.DeleteInstance(id));
      hide Constraints, Inv, Governed;
      assert Step(Tables(), Statement.DeleteInstance(id)) == DropInstance(Tables(), id);
      hide Step;
      if id !in instances { return true; }
      var gone := AttemptsOf(Tables(), id);
      var logged := HasEvents(id, gone);
      if logged { return false; }
      hide AttemptsOf;
      Write(Tables().(instances := instances - {id},
                      attempts := attempts - gone,
                      tasks := map t | t in tasks && tasks[t].instance != id && tasks[t].attempt !in gone :: tasks[t]));
      ok := true;
    }

    method InsertAttempt(id: Id, row: Attempt) returns (ok: bool)
      modifies this
      ensures Performed(old(Tables()), Statement.InsertAttempt(id, row), ok, Tables())
      ensures Inv(old(Tables())) ==> Governed(old(Tables()), Statement.InsertAttempt(id, row), ok, Tables())
    {
      StepIsGoverned(Tables(), Statement.InsertAttempt(id, row));
      hide Constraints, Inv, Governed;
      if id in attempts { return false; }
      var number := NextAttemptNumber(row.instance, row.node);
      ok := CommitWrite(Tables().(attempts := attempts[id := row.(attempt := number)]));
    }

    method UpdateAttempt(id: Id, newId: Id, row: Attempt) returns (ok: bool)
      modifies this
      ensures Performed(old(Tables()), Statement.UpdateAttempt(id, newId, row), ok, Tables())
      ensures Inv(old(Tables())) ==> Governed(old(Tables()), Statement.UpdateAttempt(id, newId, row), ok, Tables())
    {
      StepIsGoverned(Tables(), Statement.UpdateAttempt(id, newId, row));
      hide Constraints, Inv, Governed;
      if id !in attempts { return true; }
      if newId != id && newId in attempts { return false; }
      ok := CommitWrite(Tables().(attempts := Moved(attempts, id, newId, row)));
    }

    method DeleteAttempt(id: Id) returns (ok: bool)
      modifies this
      ensures Performed(old(Tables()), Statement.DeleteAttempt(id), ok, Tables())
      ensures Inv(old(Tables())) ==> Governed(old(Tables()), Statement.DeleteAttempt(id), ok, Tables())
    {
      StepIsGoverned(Tables(), Statement.DeleteAttempt(id));
      hide Constraints, Inv, Governed;
      if id !in attempts { return true; }
      if exists e <- events :: e.attempt == Some(id) { return false; }
      var gone := TasksOfAttempts(Tables(), {id});
      attempts, tasks := attempts - {id}, tasks - gone;
      ok := true;
    }

    method InsertTask(id: Id, row: Task) returns (ok: bool)
      modifies this
      ensures Performed(old(Tables()), Statement.InsertTask(id, row), ok, Tables())
      ensures Inv(old(Tables())) ==> Governed(old(Tables()), Statement.InsertTask(id, row), ok, Tables())
    {
      StepIsGoverned(Tables(), Statement.InsertTask(id, row));
      hide Constraints, Inv, Governed;
      if !BindingOf(Tables(), row.binding, row.version) || id in tasks { return false; }
      ok := CommitWrite(Tables().(tasks := tasks[id := row]));
    }

    method UpdateTask(id: Id, newId: Id, row: Task, setsBinding: bool) returns (ok: bool)
      modifies this
      ensures Performed(old(Tables()), Statement.UpdateTask(id, newId, row, setsBinding), ok, Tables())
      ensures Inv(old(Tables())) ==> Governed(old(Tables()), Statement.UpdateTask(id, newId, row, setsBinding), ok, Tables())
    {
      StepIsGoverned(Tables(), Statement.UpdateTask(id, newId, row, setsBinding));
      hide Constraints, Inv, Governed;
      if id !in tasks { return true; }
      var written := row;
      if setsBinding {
        if !BindingOf(Tables(), row.binding, row.version) { return false; }
      } else {
        written := row.(binding := tasks[id].binding, version := tasks[id].version);
      }
      if newId != id && newId in tasks { return false; }
      ok := CommitWrite(Tables().(tasks := Moved(tasks, id, newId, written)));
    }

    method DeleteTask(id: Id) returns (ok: bool)
      modifies this
      ensures Performed(old(Tables()), Statement.DeleteTask(id), ok, Tables())
      ensures Inv(old(Tables())) ==> Governed(old(Tables()), Statement.DeleteTask(id), ok, Tables())
    {
      StepIsGoverned(Tables(), Statement.DeleteTask(id));
      hide Constraints, Inv, Governed;
      tasks := tasks - {id};
      ok := true;
    }

    method InsertEvent(row: Event) returns (ok: bool)
      modifies this
      ensures Performed(old(Tables()), Statement.InsertEvent(row), ok, Tables())
      ensures Inv(old(Tables())) ==> Governed(old(Tables()), Statement.InsertEvent(row), ok, Tables())
    {
      StepIsGoverned(Tables(), Statement.InsertEvent(row));
      hide Constraints, Inv, Governed;
      var number := NextEventNumber(row.instance);
      ok := CommitWrite(Tables().(events := events + [row.(sequence := number)]));
    }

    /** workflow_reject_mutation raises for every event row a statement reaches. */
    method UpdateEvent(id: Id, row: Event) returns (ok: bool)
      modifies this
      ensures Performed(old(Tables()), Statement.UpdateEvent(id, row), ok, Tables())
      ensures Inv(old(Tables())) ==> Governed(old(Tables()), Statement.UpdateEvent(id, row), ok, Tables())
    {
      StepIsGoverned(Tables(), Statement.UpdateEvent(id, row));
      hide Constraints, Inv, Governed;
      ok := !(exists e <- events :: e.id == id);
    }

    method DeleteEvent(id: Id) returns (ok: bool)
      modifies this
      ensures Performed(old(Tables()), Statement.DeleteEvent(id), ok, Tables())
      ensures Inv(old(Tables())) ==> Governed(old(Tables()), Statement.DeleteEvent(id), ok, Tables())
    {
      StepIsGoverned(Tables(), Statement.DeleteEvent(id));
      hide Constraints, Inv, Governed;
      ok := !(exists e <- events :: e.id == id);
    }
  }
}
