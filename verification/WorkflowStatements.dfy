/**
 The effect of one INSERT, UPDATE or DELETE on the workflow tables.

 A statement either commits, giving the next database, or raises, leaving the database
 as it was. Triggers run before the row is written; declared constraints are judged on
 the database as the statement would leave it; deletes carry their cascades with them.
 */
module WorkflowStatements {
  import opened Numbering
  import opened Wrappers
  import opened WorkflowSchema

  /**
   UPDATE statements carry the whole new row and its new id; `setsVersion` and `setsBinding`
   say whether the SET list names a column that an UPDATE OF trigger watches.
   */
  datatype Statement =
    | InsertDefinition(id: Id, definition: Definition)
    | UpdateDefinition(id: Id, newId: Id, definition: Definition)
    | DeleteDefinition(id: Id)
    | InsertVersion(id: Id, version: Version)
    | UpdateVersion(id: Id, newId: Id, version: Version)
    | DeleteVersion(id: Id)
    | InsertReview(id: Id, review: Review)
    | UpdateReview(id: Id, newId: Id, review: Review)
    | DeleteReview(id: Id)
    | InsertNode(id: Id, node: Node)
    | UpdateNode(id: Id, newId: Id, node: Node)
    | DeleteNode(id: Id)
    | InsertEdge(id: Id, edge: Edge)
    | UpdateEdge(id: Id, newId: Id, edge: Edge)
    | DeleteEdge(id: Id)
    | InsertBinding(id: Id, binding: Binding)
    | UpdateBinding(id: Id, newId: Id, binding: Binding)
    | DeleteBinding(id: Id)
    | InsertInstance(id: Id, instance: Instance)
    | UpdateInstance(id: Id, newId: Id, instance: Instance, setsVersion: bool)
    | DeleteInstance(id: Id)
    | InsertAttempt(id: Id, attempt: Attempt)
    | UpdateAttempt(id: Id, newId: Id, attempt: Attempt)
    | DeleteAttempt(id: Id)
    | InsertTask(id: Id, task: Task)
    | UpdateTask(id: Id, newId: Id, task: Task, setsBinding: bool)
    | DeleteTask(id: Id)
    | InsertEvent(event: Event)
    | UpdateEvent(id: Id, event: Event)
    | DeleteEvent(id: Id)

  datatype Outcome = Done(db: Db) | Raised

  function Commit(next: Db): Outcome {
    if Constraints(next) then Done(next) else Raised
  }

  /** The table after the row `id` was replaced by `row` under `newId`. */
  function Moved<T>(m: map<Id, T>, id: Id, newId: Id, row: T): map<Id, T> {
    (m - {id})[newId := row]
  }

  /** An UPDATE can run when its row exists and the new primary key is free. */
  predicate KeyFree<T>(m: map<Id, T>, id: Id, newId: Id) {
    newId == id || newId !in m
  }

  function VersionNumbers(db: Db, definition: Id): set<int> {
    set v | v in db.versions && db.versions[v].definition == definition :: db.versions[v].number
  }

  function AttemptNumbers(db: Db, instance: Id, node: Id): set<int> {
    NumbersOf(db.attempts, instance, node)
  }

  function NumbersOf(attempts: map<Id, Attempt>, instance: Id, node: Id): set<int> {
    set a | a in attempts && attempts[a].instance == instance && attempts[a].node == node :: attempts[a].attempt
  }

  function SequenceNumbers(events: seq<Event>, instance: Id): set<int> {
    set k | 0 <= k < |events| && events[k].instance == instance :: events[k].sequence
  }

  /** workflow_guard_version_content: the row leaves or enters a published version. */
  predicate ContentFrozen(db: Db, before: Option<Id>, after: Option<Id>) {
    || (before.Some? && IsPublished(db.versions, before.value))
    || (after.Some? && IsPublished(db.versions, after.value))
  }

  /** Deleting this version row is refused: it is published, it has a review, or a restricting row reaches it. */
  predicate VersionRowHeld(db: Db, v: Id) {
    || IsPublished(db.versions, v)
    || (exists r <- db.reviews :: db.reviews[r].version == v)
    || (exists i <- db.instances :: db.instances[i].version == v)
    || (exists a <- db.attempts :: NodeOf(db.nodes, db.attempts[a].node, v))
    || (exists t <- db.tasks :: BindingOf(db, db.tasks[t].binding, v))
  }

  predicate VersionDeleteRefused(db: Db, vs: set<Id>) {
    exists v <- vs :: VersionRowHeld(db, v)
  }

  /** The cascade of a version delete: the versions' content goes with them. */
  function WithoutVersions(db: Db, vs: set<Id>): Db {
    db.(versions := db.versions - vs,
        nodes := map n | n in db.nodes && db.nodes[n].version !in vs :: db.nodes[n],
        edges := map e | e in db.edges && db.edges[e].version !in vs && !TouchesVersions(db, db.edges[e], vs) :: db.edges[e],
        bindings := map b | b in db.bindings && db.bindings[b].version !in vs :: db.bindings[b])
  }

  predicate TouchesVersions(db: Db, e: Edge, vs: set<Id>) {
    || (e.source in db.nodes && db.nodes[e.source].version in vs)
    || (e.target in db.nodes && db.nodes[e.target].version in vs)
  }

  function VersionsOf(db: Db, definition: Id): set<Id> {
    set v | v in db.versions && db.versions[v].definition == definition
  }

  function EdgesAt(db: Db, node: Id): set<Id> {
    set e | e in db.edges && (db.edges[e].source == node || db.edges[e].target == node)
  }

  function TasksOfAttempts(db: Db, attempts: set<Id>): set<Id> {
    set t | t in db.tasks && db.tasks[t].attempt in attempts
  }

  function AttemptsOf(db: Db, instance: Id): set<Id> {
    set a | a in db.attempts && db.attempts[a].instance == instance
  }

  /** workflow_validate_task_role_binding: the binding row's version is the task's version. */
  predicate BindingOf(db: Db, binding: Id, version: Id) {
    binding in db.bindings && db.bindings[binding].version == version
  }

  /** The tables of the designer: what statements on instances, attempts, tasks and events never write. */
  ghost predicate SameDesign(before: Db, after: Db) {
    && after.versions == before.versions && after.reviews == before.reviews
    && after.nodes == before.nodes && after.edges == before.edges && after.bindings == before.bindings
  }

  /** The tables of the engine: what statements on definitions, versions and their content never write. */
  ghost predicate SameEngine(before: Db, after: Db) {
    && after.instances == before.instances && after.attempts == before.attempts
    && after.tasks == before.tasks && after.events == before.events
  }

  ghost function AddDefinition(db: Db, id: Id, row: Definition): (o: Outcome)
    ensures o.Done? ==> SameEngine(db, o.db)
  {
    if id in db.definitions then Raised else Commit(db.(definitions := db.definitions[id := row]))
  }

  ghost function ChangeDefinition(db: Db, id: Id, newId: Id, row: Definition): (o: Outcome)
    ensures o.Done? ==> SameEngine(db, o.db)
  {
    if id !in db.definitions then Done(db)
    else if !KeyFree(db.definitions, id, newId) then Raised
    else Commit(db.(definitions := Moved(db.definitions, id, newId, row)))
  }

  ghost function DropDefinition(db: Db, id: Id): (o: Outcome)
    ensures o.Done? ==> SameEngine(db, o.db)
  {
    var vs := VersionsOf(db, id);
    if id !in db.definitions then Done(db)
    else if VersionDeleteRefused(db, vs) then Raised
    else Done(WithoutVersions(db, vs).(definitions := db.definitions - {id}))
  }

  ghost function AddVersion(db: Db, id: Id, row: Version): (o: Outcome)
    ensures o.Done? ==> SameEngine(db, o.db)
  {
    if id in db.versions then Raised
    else
      var numbered := row.(number := MaxOrZero(VersionNumbers(db, row.definition)) + 1);
      Commit(db.(versions := db.versions[id := numbered]))
  }

  ghost function ChangeVersion(db: Db, id: Id, newId: Id, row: Version): (o: Outcome)
    ensures o.Done? ==> SameEngine(db, o.db)
  {
    if id !in db.versions then Done(db)
    else if IsPublished(db.versions, id) || !KeyFree(db.versions, id, newId) then Raised
    else Commit(db.(versions := Moved(db.versions, id, newId, row.(revision := db.versions[id].revision + 1))))
  }

  ghost function DropVersion(db: Db, id: Id): (o: Outcome)
    ensures o.Done? ==> SameEngine(db, o.db)
  {
    if id !in db.versions then Done(db)
    else if VersionDeleteRefused(db, {id}) then Raised
    else Done(WithoutVersions(db, {id}))
  }

  ghost function AddReview(db: Db, id: Id, row: Review): (o: Outcome)
    ensures o.Done? ==> SameEngine(db, o.db)
  {
    if id in db.reviews then Raised else Commit(db.(reviews := db.reviews[id := row]))
  }

  /** Reviews are never updated or deleted: the trigger rejects every row such a statement reaches. */
  ghost function RejectReviewMutation(db: Db, id: Id): (o: Outcome)
    ensures o.Done? ==> SameEngine(db, o.db)
  {
    if id in db.reviews then Raised else Done(db)
  }

  ghost function AddNode(db: Db, id: Id, row: Node): (o: Outcome)
    ensures o.Done? ==> SameEngine(db, o.db)
  {
    if id in db.nodes || ContentFrozen(db, None, Some(row.version)) then Raised
    else Commit(db.(nodes := db.nodes[id := row]))
  }

  ghost function ChangeNode(db: Db, id: Id, newId: Id, row: Node): (o: Outcome)
    ensures o.Done? ==> SameEngine(db, o.db)
  {
    if id !in db.nodes then Done(db)
    else if ContentFrozen(db, Some(db.nodes[id].version), Some(row.version)) || !KeyFree(db.nodes, id, newId) then Raised
    else Commit(db.(nodes := Moved(db.nodes, id, newId, row)))
  }

  ghost function DropNode(db: Db, id: Id): (o: Outcome)
    ensures o.Done? ==> SameEngine(db, o.db)
  {
    if id !in db.nodes then Done(db)
    else if ContentFrozen(db, Some(db.nodes[id].version), None) then Raised
    else if exists e <- EdgesAt(db, id) :: ContentFrozen(db, Some(db.edges[e].version), None) then Raised
    else if exists a <- db.attempts :: db.attempts[a].node == id then Raised
    else Done(db.(nodes := db.nodes - {id}, edges := db.edges - EdgesAt(db, id)))
  }

  ghost function AddEdge(db: Db, id: Id, row: Edge): (o: Outcome)
    ensures o.Done? ==> SameEngine(db, o.db)
  {
    if id in db.edges || ContentFrozen(db, None, Some(row.version)) then Raised
    else Commit(db.(edges := db.edges[id := row]))
  }

  ghost function ChangeEdge(db: Db, id: Id, newId: Id, row: Edge): (o: Outcome)
    ensures o.Done? ==> SameEngine(db, o.db)
  {
    if id !in db.edges then Done(db)
    else if ContentFrozen(db, Some(db.edges[id].version), Some(row.version)) || !KeyFree(db.edges, id, newId) then Raised
    else Commit(db.(edges := Moved(db.edges, id, newId, row)))
  }

  ghost function DropEdge(db: Db, id: Id): (o: Outcome)
    ensures o.Done? ==> SameEngine(db, o.db)
  {
    if id !in db.edges then Done(db)
    else if ContentFrozen(db, Some(db.edges[id].version), None) then Raised
    else Done(db.(edges := db.edges - {id}))
  }

  ghost function AddBinding(db: Db, id: Id, row: Binding): (o: Outcome)
    ensures o.Done? ==> SameEngine(db, o.db)
  {
    if id in db.bindings || ContentFrozen(db, None, Some(row.version)) then Raised
    else Commit(db.(bindings := db.bindings[id := row]))
  }

  ghost function ChangeBinding(db: Db, id: Id, newId: Id, row: Binding): (o: Outcome)
    ensures o.Done? ==> SameEngine(db, o.db)
  {
    if id !in db.bindings then Done(db)
    else if ContentFrozen(db, Some(db.bindings[id].version), Some(row.version)) || !KeyFree(db.bindings, id, newId) then Raised
    else Commit(db.(bindings := Moved(db.bindings, id, newId, row)))
  }

  ghost function DropBinding(db: Db, id: Id): (o: Outcome)
    ensures o.Done? ==> SameEngine(db, o.db)
  {
    if id !in db.bindings then Done(db)
    else if ContentFrozen(db, Some(db.bindings[id].version), None) then Raised
    else if exists t <- db.tasks :: db.tasks[t].binding == id then Raised
    else Done(db.(bindings := db.bindings - {id}))
  }

  ghost function AddInstance(db: Db, id: Id, row: Instance): (o: Outcome)
    ensures o.Done? ==> SameDesign(db, o.db)
  {
    if id in db.instances || !IsPublished(db.versions, row.version) then Raised
    else Commit(db.(instances := db.instances[id := row]))
  }

  ghost function ChangeInstance(db: Db, id: Id, newId: Id, row: Instance, setsVersion: bool): (o: Outcome)
    ensures o.Done? ==> SameDesign(db, o.db)
  {
    if id !in db.instances then Done(db)
    else
      var written := if setsVersion then row else row.(version := db.instances[id].version);
      if (setsVersion && !IsPublished(db.versions, row.version)) || !KeyFree(db.instances, id, newId) then Raised
      else Commit(db.(instances := Moved(db.instances, id, newId, written)))
  }

  ghost function DropInstance(db: Db, id: Id): (o: Outcome)
    ensures o.Done? ==> SameDesign(db, o.db)
  {
    if id !in db.instances then Done(db)
    else if exists e <- db.events :: e.instance == id || (e.attempt.Some? && e.attempt.value in AttemptsOf(db, id)) then Raised
    else
      Done(db.(instances := db.instances - {id},
               attempts := db.attempts - AttemptsOf(db, id),
               tasks := map t | t in db.tasks && db.tasks[t].instance != id && db.tasks[t].attempt !in AttemptsOf(db, id) :: db.tasks[t]))
  }

  ghost function AddAttempt(db: Db, id: Id, row: Attempt): (o: Outcome)
    ensures o.Done? ==> SameDesign(db, o.db)
  {
    if id in db.attempts then Raised
    else
      var numbered := row.(attempt := MaxOrZero(AttemptNumbers(db, row.instance, row.node)) + 1);
      Commit(db.(attempts := db.attempts[id := numbered]))
  }

  ghost function ChangeAttempt(db: Db, id: Id, newId: Id, row: Attempt): (o: Outcome)
    ensures o.Done? ==> SameDesign(db, o.db)
  {
    if id !in db.attempts then Done(db)
    else if !KeyFree(db.attempts, id, newId) then Raised
    else Commit(db.(attempts := Moved(db.attempts, id, newId, row)))
  }

  ghost function DropAttempt(db: Db, id: Id): (o: Outcome)
    ensures o.Done? ==> SameDesign(db, o.db)
  {
    if id !in db.attempts then Done(db)
    else if exists e <- db.events :: e.attempt == Some(id) then Raised
    else Done(db.(attempts := db.attempts - {id}, tasks := db.tasks - TasksOfAttempts(db, {id})))
  }

  ghost function AddTask(db: Db, id: Id, row: Task): (o: Outcome)
    ensures o.Done? ==> SameDesign(db, o.db)
  {
    if id in db.tasks || !BindingOf(db, row.binding, row.version) then Raised
    else Commit(db.(tasks := db.tasks[id := row]))
  }

  ghost function ChangeTask(db: Db, id: Id, newId: Id, row: Task, setsBinding: bool): (o: Outcome)
    ensures o.Done? ==> SameDesign(db, o.db)
  {
    if id !in db.tasks then Done(db)
    else
      var written := if setsBinding then row else row.(binding := db.tasks[id].binding, version := db.tasks[id].version);
      if (setsBinding && !BindingOf(db, row.binding, row.version)) || !KeyFree(db.tasks, id, newId) then Raised
      else Commit(db.(tasks := Moved(db.tasks, id, newId, written)))
  }

  ghost function DropTask(db: Db, id: Id): (o: Outcome)
    ensures o.Done? ==> SameDesign(db, o.db)
  {
    Done(db.(tasks := db.tasks - {id}))
  }

  ghost function AddEvent(db: Db, row: Event): (o: Outcome)
    ensures o.Done? ==> SameDesign(db, o.db)
  {
    var numbered := row.(sequence := MaxOrZero(SequenceNumbers(db.events, row.instance)) + 1);
    Commit(db.(events := db.events + [numbered]))
  }

  /** workflow_reject_mutation on the event log. */
  ghost function RejectEventMutation(db: Db, id: Id): (o: Outcome)
    ensures o.Done? ==> o.db == db
  {
    if exists e <- db.events :: e.id == id then Raised else Done(db)
  }

  predicate OnVersionTables(s: Statement) {
    || s.InsertDefinition? || s.UpdateDefinition? || s.DeleteDefinition? || s.InsertVersion? || s.UpdateVersion? || s.DeleteVersion?
    || s.InsertReview? || s.UpdateReview? || s.DeleteReview?
  }

  predicate OnContentTables(s: Statement) {
    || s.InsertNode? || s.UpdateNode? || s.DeleteNode? || s.InsertEdge? || s.UpdateEdge? || s.DeleteEdge?
    || s.InsertBinding? || s.UpdateBinding? || s.DeleteBinding?
  }

  predicate OnRunTables(s: Statement) {
    s.InsertInstance? || s.UpdateInstance? || s.DeleteInstance? || s.InsertAttempt? || s.UpdateAttempt? || s.DeleteAttempt?
  }

  ghost function VersionStep(db: Db, s: Statement): (o: Outcome)
    requires OnVersionTables(s)
    ensures o.Done? ==> SameEngine(db, o.db)
  {
    hide AddDefinition, ChangeDefinition, DropDefinition, AddVersion, ChangeVersion, DropVersion, AddReview,
         RejectReviewMutation;
    match s
    case InsertDefinition(id, row) => AddDefinition(db, id, row)
    case UpdateDefinition(id, newId, row) => ChangeDefinition(db, id, newId, row)
    case DeleteDefinition(id) => DropDefinition(db, id)
    case InsertVersion(id, row) => AddVersion(db, id, row)
    case UpdateVersion(id, newId, row) => ChangeVersion(db, id, newId, row)
    case DeleteVersion(id) => DropVersion(db, id)
    case InsertReview(id, row) => AddReview(db, id, row)
    case UpdateReview(id, _, _) => RejectReviewMutation(db, id)
    case DeleteReview(id) => RejectReviewMutation(db, id)
  }

  ghost function ContentStep(db: Db, s: Statement): (o: Outcome)
    requires OnContentTables(s)
    ensures o.Done? ==> SameEngine(db, o.db)
  {
    hide AddNode, ChangeNode, DropNode, AddEdge, ChangeEdge, DropEdge, AddBinding, ChangeBinding, DropBinding;
    match s
    case InsertNode(id, row) => AddNode(db, id, row)
    case UpdateNode(id, newId, row) => ChangeNode(db, id, newId, row)
    case DeleteNode(id) => DropNode(db, id)
    case InsertEdge(id, row) => AddEdge(db, id, row)
    case UpdateEdge(id, newId, row) => ChangeEdge(db, id, newId, row)
    case DeleteEdge(id) => DropEdge(db, id)
    case InsertBinding(id, row) => AddBinding(db, id, row)
    case UpdateBinding(id, newId, row) => ChangeBinding(db, id, newId, row)
    case DeleteBinding(id) => DropBinding(db, id)
  }

  ghost function RunStep(db: Db, s: Statement): (o: Outcome)
    requires OnRunTables(s)
    ensures o.Done? ==> SameDesign(db, o.db)
  {
    match s
    case InsertInstance(id, row) => AddInstance(db, id, row)
    case UpdateInstance(id, newId, row, setsVersion) => ChangeInstance(db, id, newId, row, setsVersion)
    case DeleteInstance(id) => DropInstance(db, id)
    case InsertAttempt(id, row) => AddAttempt(db, id, row)
    case UpdateAttempt(id, newId, row) => ChangeAttempt(db, id, newId, row)
    case DeleteAttempt(id) => DropAttempt(db, id)
  }

  ghost function WorkStep(db: Db, s: Statement): (o: Outcome)
    requires !OnVersionTables(s) && !OnContentTables(s) && !OnRunTables(s)
    ensures o.Done? ==> SameDesign(db, o.db)
  {
    match s
    case InsertTask(id, row) => AddTask(db, id, row)
    case UpdateTask(id, newId, row, setsBinding) => ChangeTask(db, id, newId, row, setsBinding)
    case DeleteTask(id) => DropTask(db, id)
    case InsertEvent(row) => AddEvent(db, row)
    case UpdateEvent(id, _) => RejectEventMutation(db, id)
    case DeleteEvent(id) => RejectEventMutation(db, id)
  }

  /** The effect of one statement: triggers, then cascades, then constraints. */
  ghost function Step(db: Db, s: Statement): Outcome {
    if OnVersionTables(s) then VersionStep(db, s)
    else if OnContentTables(s) then ContentStep(db, s)
    else if OnRunTables(s) then RunStep(db, s)
    else WorkStep(db, s)
  }

  ghost function After(db: Db, s: Statement): Db {
    match Step(db, s) case Done(next) => next case Raised => db
  }

  ghost function Run(db: Db, ss: seq<Statement>): Db
    decreases |ss|
  {
    if ss == [] then db else Run(After(db, ss[0]), ss[1..])
  }
}
