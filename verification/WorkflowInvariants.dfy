/**
 What every statement on the workflow tables keeps, and hence what holds in every
 database reachable by any sequence of statements.
 */
module WorkflowInvariants {
  import opened Numbering
  import opened Wrappers
  import opened WorkflowSchema
  import opened WorkflowStatements

  ghost predicate InstancesRunPublished(versions: map<Id, Version>, instances: map<Id, Instance>) {
    forall i <- instances :: IsPublished(versions, instances[i].version)
  }

  ghost predicate TasksBoundInVersion(bindings: map<Id, Binding>, tasks: map<Id, Task>) {
    forall t <- tasks ::
      tasks[t].binding in bindings && bindings[tasks[t].binding].version == tasks[t].version
  }

  /** The events of one instance, in the order they were inserted. */
  function LogOf(events: seq<Event>, instance: Id): seq<Event> {
    if events == [] then []
    else
      var log := LogOf(events[..|events| - 1], instance);
      var last := events[|events| - 1];
      if last.instance == instance then log + [last] else log
  }

  ghost predicate Sequenced(log: seq<Event>) {
    forall k | 0 <= k < |log| :: log[k].sequence == k + 1
  }

  ghost predicate EventsSequenced(events: seq<Event>) {
    forall i: Id :: Sequenced(LogOf(events, i))
  }

  /** Holds of every reachable database: the declared constraints and what the triggers add to them. */
  ghost predicate Inv(db: Db) {
    && Constraints(db)
    && InstancesRunPublished(db.versions, db.instances)
    && TasksBoundInVersion(db.bindings, db.tasks)
    && EventsSequenced(db.events)
  }

  // ---- Deletes and their cascades leave no dangling reference ----

  ghost predicate Within<T>(part: map<Id, T>, whole: map<Id, T>) {
    forall k <- part :: k in whole && part[k] == whole[k]
  }

  lemma UniqueWithin<T, K>(part: map<Id, T>, whole: map<Id, T>, key: T -> K)
    requires Within(part, whole) && Unique(whole, key)
    ensures Unique(part, key)
  {
  }

  lemma VersionsLeft(definitions: map<Id, Definition>, versions: map<Id, Version>, vs: set<Id>)
    requires VersionConstraints(definitions, versions)
    ensures VersionConstraints(definitions, versions - vs)
  {
  }

  lemma NodesLeft(db: Db, vs: set<Id>)
    requires NodeConstraints(db.versions, db.nodes)
    ensures NodeConstraints(db.versions - vs, WithoutVersions(db, vs).nodes)
  {
  }

  lemma EdgesLeft(db: Db, vs: set<Id>)
    requires EdgeConstraints(db.versions, db.nodes, db.edges)
    ensures EdgeConstraints(db.versions - vs, WithoutVersions(db, vs).nodes, WithoutVersions(db, vs).edges)
  {
  }

  lemma BindingsLeft(db: Db, vs: set<Id>)
    requires BindingConstraints(db.versions, db.bindings)
    ensures BindingConstraints(db.versions - vs, WithoutVersions(db, vs).bindings)
  {
  }

  lemma ReferrersLeft(db: Db, vs: set<Id>)
    requires Constraints(db) && !VersionDeleteRefused(db, vs)
    ensures ReviewConstraints(db.versions - vs, db.reviews)
    ensures InstanceConstraints(db.versions - vs, db.instances)
    ensures AttemptConstraints(WithoutVersions(db, vs).nodes, db.instances, db.attempts)
    ensures TaskConstraints(WithoutVersions(db, vs).bindings, db.instances, db.attempts, db.tasks)
  {
    forall r <- db.reviews ensures db.reviews[r].version !in vs {
      assert VersionRowHeld(db, db.reviews[r].version);
    }
    forall i <- db.instances ensures db.instances[i].version !in vs {
      assert VersionRowHeld(db, db.instances[i].version);
    }
    forall t <- db.tasks ensures TaskRowOk(WithoutVersions(db, vs).bindings, db.instances, db.attempts, db.tasks[t]) {
      assert TaskRowOk(db.bindings, db.instances, db.attempts, db.tasks[t]);
      assert BindingOf(db, db.tasks[t].binding, db.bindings[db.tasks[t].binding].version);
      assert VersionRowHeld(db, db.bindings[db.tasks[t].binding].version);
    }
    forall a <- db.attempts ensures AttemptRowOk(WithoutVersions(db, vs).nodes, db.instances, db.attempts[a]) {
      assert AttemptRowOk(db.nodes, db.instances, db.attempts[a]);
      assert VersionRowHeld(db, db.attempts[a].version);
    }
  }

  lemma VersionsLeftPublished(db: Db, vs: set<Id>)
    requires InstancesRunPublished(db.versions, db.instances) && !VersionDeleteRefused(db, vs)
    ensures InstancesRunPublished(db.versions - vs, db.instances)
  {
  }

  lemma BindingsLeftBound(db: Db, vs: set<Id>)
    requires TasksBoundInVersion(db.bindings, db.tasks) && !VersionDeleteRefused(db, vs)
    ensures TasksBoundInVersion(WithoutVersions(db, vs).bindings, db.tasks)
  {
  }

  lemma VersionCascadeKeepsInv(db: Db, vs: set<Id>)
    requires Inv(db) && !VersionDeleteRefused(db, vs)
    ensures Inv(WithoutVersions(db, vs))
  {
    VersionsLeft(db.definitions, db.versions, vs);
    NodesLeft(db, vs);
    EdgesLeft(db, vs);
    BindingsLeft(db, vs);
    ReferrersLeft(db, vs);
    VersionsLeftPublished(db, vs);
    BindingsLeftBound(db, vs);
    hide VersionDeleteRefused;
  }

  lemma DefinitionDeleteKeepsInv(db: Db, id: Id)
    requires Inv(db) && id in db.definitions && !VersionDeleteRefused(db, VersionsOf(db, id))
    ensures Inv(DropDefinition(db, id).db)
  {
    var vs := VersionsOf(db, id);
    VersionCascadeKeepsInv(db, vs);
    UniqueWithin(db.definitions - {id}, db.definitions, ScopeSlug);
    assert VersionConstraints(db.definitions - {id}, db.versions - vs);
  }

  lemma NodesAfterDrop(versions: map<Id, Version>, nodes: map<Id, Node>,
                       instances: map<Id, Instance>, attempts: map<Id, Attempt>, id: Id)
    requires NodeConstraints(versions, nodes) && AttemptConstraints(nodes, instances, attempts)
    requires forall a <- attempts :: attempts[a].node != id
    ensures NodeConstraints(versions, nodes - {id}) && AttemptConstraints(nodes - {id}, instances, attempts)
  {
  }

  lemma EdgesAfterDrop(db: Db, id: Id)
    requires EdgeConstraints(db.versions, db.nodes, db.edges)
    ensures EdgeConstraints(db.versions, db.nodes - {id}, db.edges - EdgesAt(db, id))
  {
  }

  lemma NodeDeleteKeepsInv(db: Db, id: Id)
    requires Inv(db) && DropNode(db, id).Done?
    ensures Inv(DropNode(db, id).db)
  {
    if id in db.nodes {
      NodesAfterDrop(db.versions, db.nodes, db.instances, db.attempts, id);
      EdgesAfterDrop(db, id);
    }
  }

  lemma EdgeDeleteKeepsInv(db: Db, id: Id)
    requires Inv(db) && DropEdge(db, id).Done?
    ensures Inv(DropEdge(db, id).db)
  {
    UniqueWithin(db.edges - {id}, db.edges, EdgeKey);
  }

  lemma BindingDeleteKeepsInv(db: Db, id: Id)
    requires Inv(db) && DropBinding(db, id).Done?
    ensures Inv(DropBinding(db, id).db)
  {
    hide DefinitionConstraints, VersionConstraints, ReviewConstraints, NodeConstraints, EdgeConstraints,
         InstanceConstraints, AttemptConstraints, EventConstraints;
    UniqueWithin(db.bindings - {id}, db.bindings, RoleKey);
    var next := DropBinding(db, id).db;
    assert TaskConstraints(next.bindings, next.instances, next.attempts, next.tasks);
  }

  lemma TasksLeft(db: Db, instances: map<Id, Instance>, attempts: map<Id, Attempt>, tasks: map<Id, Task>)
    requires Inv(db)
    requires Within(instances, db.instances) && Within(attempts, db.attempts) && Within(tasks, db.tasks)
    requires forall t <- tasks :: tasks[t].instance in instances && tasks[t].attempt in attempts
    ensures TaskConstraints(db.bindings, instances, attempts, tasks)
  {
    UniqueWithin(tasks, db.tasks, TaskAttempt);
    UniqueWithin(tasks, db.tasks, TaskIdempotency);
    forall t <- tasks ensures TaskRowOk(db.bindings, instances, attempts, tasks[t]) {
      assert TaskRowOk(db.bindings, db.instances, db.attempts, db.tasks[t]);
    }
  }

  lemma AttemptsLeft(db: Db, instances: map<Id, Instance>, attempts: map<Id, Attempt>)
    requires Inv(db)
    requires Within(instances, db.instances) && Within(attempts, db.attempts)
    requires forall a <- attempts :: attempts[a].instance in instances
    ensures AttemptConstraints(db.nodes, instances, attempts)
  {
    UniqueWithin(attempts, db.attempts, AttemptKey);
    UniqueWithin(attempts, db.attempts, AttemptIdempotency);
    forall a <- attempts ensures AttemptRowOk(db.nodes, instances, attempts[a]) {
      assert AttemptRowOk(db.nodes, db.instances, db.attempts[a]);
    }
  }

  lemma EventsLeft(instances: map<Id, Instance>, attempts: map<Id, Attempt>,
                   instances': map<Id, Instance>, attempts': map<Id, Attempt>, events: seq<Event>)
    requires EventConstraints(instances, attempts, events)
    requires Within(instances', instances) && Within(attempts', attempts)
    requires forall e <- events :: e.instance in instances' && (e.attempt.Some? ==> e.attempt.value in attempts')
    ensures EventConstraints(instances', attempts', events)
  {
  }

  lemma InstanceReferrersLeft(db: Db, id: Id)
    requires Inv(db) && id in db.instances && DropInstance(db, id).Done?
    ensures var next := DropInstance(db, id).db;
            && (forall a <- next.attempts :: next.attempts[a].instance in next.instances)
            && (forall t <- next.tasks :: next.tasks[t].instance in next.instances && next.tasks[t].attempt in next.attempts)
  {
    hide DefinitionConstraints, VersionConstraints, ReviewConstraints, NodeConstraints, EdgeConstraints,
         BindingConstraints, InstanceConstraints;
    hide EventConstraints, InstancesRunPublished, TasksBoundInVersion, EventsSequenced, Unique;
    var next := DropInstance(db, id).db;
    forall a <- next.attempts ensures next.attempts[a].instance in next.instances {
      assert AttemptRowOk(db.nodes, db.instances, db.attempts[a]);
    }
    forall t <- next.tasks ensures next.tasks[t].instance in next.instances && next.tasks[t].attempt in next.attempts {
      assert TaskRowOk(db.bindings, db.instances, db.attempts, db.tasks[t]);
    }
  }

  lemma InstanceEventsLeft(db: Db, id: Id)
    requires EventConstraints(db.instances, db.attempts, db.events) && id in db.instances && DropInstance(db, id).Done?
    ensures var next := DropInstance(db, id).db;
            EventConstraints(next.instances, next.attempts, next.events)
  {
  }

  lemma InstanceDeleteKeepsInv(db: Db, id: Id)
    requires Inv(db) && id in db.instances && DropInstance(db, id).Done?
    ensures Inv(DropInstance(db, id).db)
  {
    var next := DropInstance(db, id).db;
    UniqueWithin(next.instances, db.instances, StartKey);
    InstanceReferrersLeft(db, id);
    AttemptsLeft(db, next.instances, next.attempts);
    TasksLeft(db, next.instances, next.attempts, next.tasks);
    InstanceEventsLeft(db, id);
  }

  lemma AttemptDeleteKeepsInv(db: Db, id: Id)
    requires Inv(db) && id in db.attempts && DropAttempt(db, id).Done?
    ensures Inv(DropAttempt(db, id).db)
  {
    hide DefinitionConstraints, VersionConstraints, ReviewConstraints, NodeConstraints, EdgeConstraints,
         BindingConstraints, InstanceConstraints;
    hide Unique;
    var next := DropAttempt(db, id).db;
    AttemptsLeft(db, next.instances, next.attempts) by {
      forall a <- next.attempts ensures next.attempts[a].instance in next.instances {
        assert AttemptRowOk(db.nodes, db.instances, db.attempts[a]);
      }
    }
    TasksLeft(db, next.instances, next.attempts, next.tasks) by {
      forall t <- next.tasks ensures next.tasks[t].instance in next.instances && next.tasks[t].attempt in next.attempts {
        assert TaskRowOk(db.bindings, db.instances, db.attempts, db.tasks[t]);
      }
    }
    EventsLeft(db.instances, db.attempts, next.instances, next.attempts, next.events) by {
      forall e <- db.events ensures e.instance in next.instances && (e.attempt.Some? ==> e.attempt.value in next.attempts) {
        assert EventRowOk(db.instances, db.attempts, e);
      }
    }
  }

  lemma TaskDeleteKeepsInv(db: Db, id: Id)
    requires Inv(db)
    ensures Inv(DropTask(db, id).db)
  {
    TasksLeft(db, db.instances, db.attempts, db.tasks - {id});
  }

  // ---- Writes: what the triggers add to the constraints that a commit has judged ----

  /** A draft version has no instance, so a write that spares published versions spares every instance's version. */
  lemma VersionWriteSparesInstances(before: map<Id, Version>, after: map<Id, Version>, instances: map<Id, Instance>)
    requires InstancesRunPublished(before, instances)
    requires forall v <- before :: IsPublished(before, v) ==> v in after && after[v] == before[v]
    ensures InstancesRunPublished(after, instances)
  {
  }

  /** A binding that a task uses belongs to a published version: the task's, which is its instance's. */
  lemma UsedBindingIsPublished(db: Db, t: Id)
    requires Inv(db) && t in db.tasks
    ensures IsPublished(db.versions, db.bindings[db.tasks[t].binding].version)
  {
  }

  /** The content guard therefore keeps a used binding where it is. */
  lemma BindingChangeKeepsInv(db: Db, id: Id, newId: Id, row: Binding)
    requires Inv(db) && ChangeBinding(db, id, newId, row).Done?
    ensures Inv(ChangeBinding(db, id, newId, row).db)
  {
    hide DefinitionConstraints, VersionConstraints, ReviewConstraints, NodeConstraints, EdgeConstraints,
         BindingConstraints, InstanceConstraints;
    hide AttemptConstraints, TaskConstraints, EventConstraints;
    var next := ChangeBinding(db, id, newId, row).db;
    if id in db.bindings {
      forall t <- db.tasks
        ensures db.tasks[t].binding in next.bindings
        ensures next.bindings[db.tasks[t].binding].version == db.tasks[t].version
      {
        UsedBindingIsPublished(db, t);
        assert db.tasks[t].binding != id && db.tasks[t].binding in db.bindings;
      }
    }
  }

  // ---- The event log ----

  lemma SequenceNumbersOfPrefix(events: seq<Event>, instance: Id, n: int)
    requires events != []
    ensures var front, last := events[..|events| - 1], events[|events| - 1];
            n in SequenceNumbers(events, instance)
            <==> n in SequenceNumbers(front, instance) || (last.instance == instance && n == last.sequence)
  {
  }

  lemma {:induction false} LogNumbers(events: seq<Event>, instance: Id)
    requires Sequenced(LogOf(events, instance))
    ensures forall n :: n in SequenceNumbers(events, instance) <==> 1 <= n <= |LogOf(events, instance)|
  {
    if events != [] {
      var front, last := events[..|events| - 1], events[|events| - 1];
      var before, log := LogOf(front, instance), LogOf(events, instance);
      assert before == log[..|before|];
      LogNumbers(front, instance);
      assert last.instance == instance ==> log[|before|] == last;
      forall n ensures n in SequenceNumbers(events, instance) <==> 1 <= n <= |log| {
        SequenceNumbersOfPrefix(events, instance, n);
      }
    }
  }

  /** The trigger's MAX + 1 is one more than the number of events the instance has. */
  lemma NextSequence(events: seq<Event>, instance: Id)
    requires Sequenced(LogOf(events, instance))
    ensures MaxOrZero(SequenceNumbers(events, instance)) == |LogOf(events, instance)|
  {
    LogNumbers(events, instance);
    var numbers := SequenceNumbers(events, instance);
    if |LogOf(events, instance)| > 0 {
      assert |LogOf(events, instance)| in numbers;
    } else {
      assert numbers == {};
    }
  }

  lemma EventAddKeepsInv(db: Db, row: Event)
    requires Inv(db) && AddEvent(db, row).Done?
    ensures Inv(AddEvent(db, row).db)
  {
    var next := AddEvent(db, row).db;
    var written := next.events[|db.events|];
    assert next.events[..|db.events|] == db.events;
    NextSequence(db.events, row.instance);
    forall i: Id ensures Sequenced(LogOf(next.events, i)) {
      assert LogOf(next.events, i)
          == if written.instance == i then LogOf(db.events, i) + [written] else LogOf(db.events, i);
    }
  }

  lemma DeleteKeepsInv(db: Db, s: Statement)
    requires Inv(db) && Step(db, s).Done?
    requires s.DeleteDefinition? || s.DeleteVersion? || s.DeleteNode? || s.DeleteEdge? || s.DeleteBinding?
             || s.DeleteInstance? || s.DeleteAttempt? || s.DeleteTask?
    ensures Inv(After(db, s))
  {
    hide Inv, AddDefinition, ChangeDefinition, AddVersion, ChangeVersion, AddReview, RejectReviewMutation, AddNode,
         ChangeNode, DropNode;
    hide AddEdge, ChangeEdge, DropEdge, AddBinding, ChangeBinding, DropBinding, DropTask, VersionDeleteRefused,
         WithoutVersions;
    match s
    case DeleteDefinition(id) => if id in db.definitions { DefinitionDeleteKeepsInv(db, id); }
    case DeleteVersion(id) => if id in db.versions { VersionCascadeKeepsInv(db, {id}); }
    case DeleteNode(id) => NodeDeleteKeepsInv(db, id);
    case DeleteEdge(id) => EdgeDeleteKeepsInv(db, id);
    case DeleteBinding(id) => BindingDeleteKeepsInv(db, id);
    case DeleteInstance(id) => if id in db.instances { InstanceDeleteKeepsInv(db, id); }
    case DeleteAttempt(id) => if id in db.attempts { AttemptDeleteKeepsInv(db, id); }
    case DeleteTask(id) => TaskDeleteKeepsInv(db, id);
  }

  lemma VersionWriteKeepsInv(db: Db, s: Statement)
    requires Inv(db) && Step(db, s).Done? && (s.InsertVersion? || s.UpdateVersion?)
    ensures Inv(After(db, s))
  {
    hide DefinitionConstraints, VersionConstraints, ReviewConstraints, NodeConstraints, EdgeConstraints,
         BindingConstraints, InstanceConstraints;
    hide AttemptConstraints, TaskConstraints, EventConstraints;
    VersionWriteSparesInstances(db.versions, After(db, s).versions, db.instances);
  }

  lemma DesignWriteKeepsInv(db: Db, s: Statement)
    requires Inv(db) && Step(db, s).Done?
    requires s.InsertDefinition? || s.UpdateDefinition? || s.InsertReview? || s.UpdateReview?
             || s.InsertNode? || s.UpdateNode? || s.InsertEdge? || s.UpdateEdge? || s.InsertBinding?
    ensures Inv(After(db, s))
  {
    hide DefinitionConstraints, VersionConstraints, ReviewConstraints, NodeConstraints, EdgeConstraints,
         BindingConstraints, InstanceConstraints, AttemptConstraints, TaskConstraints, EventConstraints;
  }

  lemma EngineWriteKeepsInv(db: Db, s: Statement)
    requires Inv(db) && Step(db, s).Done?
    requires s.InsertInstance? || s.UpdateInstance? || s.InsertAttempt? || s.UpdateAttempt? || s.InsertTask? || s.UpdateTask?
    ensures Inv(After(db, s))
  {
    hide DefinitionConstraints, VersionConstraints, ReviewConstraints, NodeConstraints, EdgeConstraints,
         BindingConstraints, InstanceConstraints, AttemptConstraints, TaskConstraints, EventConstraints;
  }

  lemma StepKeepsInv(db: Db, s: Statement)
    requires Inv(db)
    ensures Inv(After(db, s))
  {
    hide Inv, AddDefinition, ChangeDefinition, AddVersion, ChangeVersion, AddReview, AddNode, ChangeNode, DropNode,
         AddEdge,
         ChangeEdge, DropEdge, AddBinding, ChangeBinding, DropBinding, AddInstance, ChangeInstance, DropInstance,
         AddAttempt, ChangeAttempt, DropAttempt, AddTask, ChangeTask, DropTask, AddEvent, DropDefinition, DropVersion;
    if Step(db, s).Done? {
      match s
      case InsertVersion(_, _) => VersionWriteKeepsInv(db, s);
      case UpdateVersion(_, _, _) => VersionWriteKeepsInv(db, s);
      case UpdateBinding(id, newId, row) => BindingChangeKeepsInv(db, id, newId, row);
      case InsertEvent(row) => EventAddKeepsInv(db, row);
      case DeleteReview(_) =>
      case UpdateEvent(_, _) =>
      case DeleteEvent(_) =>
      case _ =>
        if s.InsertInstance? || s.UpdateInstance? || s.InsertAttempt? || s.UpdateAttempt? || s.InsertTask? || s.UpdateTask? {
          EngineWriteKeepsInv(db, s);
        } else if s.InsertDefinition? || s.UpdateDefinition? || s.InsertReview? || s.UpdateReview?
             || s.InsertNode? || s.UpdateNode? || s.InsertEdge? || s.UpdateEdge? || s.InsertBinding? {
          DesignWriteKeepsInv(db, s);
        } else {
          DeleteKeepsInv(db, s);
        }
    }
  }

  lemma {:induction false} RunKeepsInv(db: Db, ss: seq<Statement>)
    requires Inv(db)
    ensures Inv(Run(db, ss))
    decreases |ss|
  {
    if ss != [] {
      StepKeepsInv(db, ss[0]);
      RunKeepsInv(After(db, ss[0]), ss[1..]);
    }
  }

  lemma ReachableKeepsInv(ss: seq<Statement>)
    ensures Inv(Run(EMPTY, ss))
  {
    RunKeepsInv(EMPTY, ss);
  }
}
