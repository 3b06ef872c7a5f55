/**
 What each statement on the workflow tables is for: when it commits, row by row, and
 which rows it leaves. In a database that meets the rules, the constraints on a whole table
 come down to conditions on the one row a statement writes and on the rows that refer to it.
 */
module WorkflowEffects {
  import opened Numbering
  import opened Wrappers
  import opened WorkflowSchema
  import opened WorkflowStatements
  import opened WorkflowInvariants

  // ---- Rows left ----

  /** The row that was under id is now this row under newId, and every other row is where it was. */
  ghost predicate Replaced<T(!new)>(before: map<Id, T>, after: map<Id, T>, id: Id, newId: Id, row: T) {
    && newId in after && after[newId] == row && (id != newId ==> id !in after)
    && forall k | k != id && k != newId :: (k in after <==> k in before) && (k in before ==> after[k] == before[k])
  }

  // ---- What each statement asks, and what it leaves ----

  predicate DefinitionFits(db: Db, but: set<Id>, row: Definition) {
    && row.tenant != "" && row.businessUnit != ""
    && forall d <- db.definitions | d !in but :: ScopeSlug(db.definitions[d]) != ScopeSlug(row)
  }

  predicate VersionFits(db: Db, but: set<Id>, row: Version) {
    && row.definition in db.definitions && row.number > 0 && row.schemaVersion > 0 && row.revision > 0
    && (row.publication.Published? ==> IsContentHash(row.publication.contentHash))
    && (forall v <- db.versions | v !in but && db.versions[v].definition == row.definition ::
          db.versions[v].number != row.number && (db.versions[v].publication.Published? || row.publication.Published?))
  }

  predicate NodeFits(db: Db, but: set<Id>, row: Node) {
    && row.version in db.versions && row.key != "" && row.contractVersion > 0
    && forall n <- db.nodes | n !in but :: !(db.nodes[n].version == row.version && db.nodes[n].key == row.key)
  }

  predicate EdgeFits(db: Db, but: set<Id>, row: Edge) {
    && row.version in db.versions && row.key != "" && row.source != row.target
    && NodeOf(db.nodes, row.source, row.version) && NodeOf(db.nodes, row.target, row.version)
    && forall e <- db.edges | e !in but :: !(db.edges[e].version == row.version && db.edges[e].key == row.key)
  }

  predicate BindingFits(db: Db, but: set<Id>, row: Binding) {
    && row.version in db.versions && row.role != "" && row.group != "" && row.permissions != []
    && forall b <- db.bindings | b !in but ::
         !(db.bindings[b].version == row.version && db.bindings[b].role == row.role && db.bindings[b].group == row.group)
  }

  predicate InstanceFits(db: Db, but: set<Id>, row: Instance) {
    && row.version in db.versions && row.tenant != ""
    && forall i <- db.instances | i !in but ::
         !(db.instances[i].tenant == row.tenant && db.instances[i].idempotencyKey == row.idempotencyKey)
  }

  predicate AttemptFits(db: Db, but: set<Id>, row: Attempt) {
    && InstanceOf(db.instances, row.instance, row.version) && NodeOf(db.nodes, row.node, row.version)
    && 0 < row.attempt <= row.maxAttempts
    && forall a <- db.attempts | a !in but && db.attempts[a].instance == row.instance ::
         && !(db.attempts[a].node == row.node && db.attempts[a].attempt == row.attempt)
         && db.attempts[a].idempotencyKey != row.idempotencyKey
  }

  predicate TaskFits(db: Db, but: set<Id>, row: Task) {
    && row.binding in db.bindings && InstanceOf(db.instances, row.instance, row.version)
    && row.attempt in db.attempts
    && db.attempts[row.attempt].instance == row.instance && db.attempts[row.attempt].version == row.version
    && forall t <- db.tasks | t !in but ::
         && db.tasks[t].attempt != row.attempt
         && !(db.tasks[t].instance == row.instance && db.tasks[t].idempotencyKey == row.idempotencyKey)
  }

  /** The number after the last one of the definition. */
  ghost predicate NextVersion(db: Db, row: Version, n: int) {
    && n > 0
    && (n == 1 || exists v <- db.versions :: db.versions[v].definition == row.definition && db.versions[v].number == n - 1)
    && forall v <- db.versions | db.versions[v].definition == row.definition :: db.versions[v].number < n
  }

  predicate Insertable(db: Db, row: Version) {
    && row.definition in db.definitions && row.schemaVersion > 0 && row.revision > 0
    && (row.publication.Published? ==> IsContentHash(row.publication.contentHash))
    && (row.publication.Draft? ==>
          forall v <- db.versions | db.versions[v].definition == row.definition :: db.versions[v].publication.Published?)
  }

  predicate DraftMayMove(db: Db, id: Id, newId: Id) {
    newId != id ==>
      && (forall r <- db.reviews :: db.reviews[r].version != id)
      && (forall n <- db.nodes :: db.nodes[n].version != id)
      && (forall b <- db.bindings :: db.bindings[b].version != id)
  }

  /** What can be deleted is exactly a draft that has no review. */
  predicate Deletable(db: Db, v: Id) {
    && (v in db.versions ==> db.versions[v].publication.Draft?)
    && forall r <- db.reviews :: db.reviews[r].version != v
  }

  /** The database without the versions vs: their own rows, and the rows whose version they are. */
  ghost predicate LeftWithout(before: Db, after: Db, vs: set<Id>) {
    && after.versions == (map v | v in before.versions && v !in vs :: before.versions[v])
    && after.nodes == (map n | n in before.nodes && before.nodes[n].version !in vs :: before.nodes[n])
    && after.edges == (map e | e in before.edges && before.edges[e].version !in vs :: before.edges[e])
    && after.bindings == (map b | b in before.bindings && before.bindings[b].version !in vs :: before.bindings[b])
    && after.reviews == before.reviews && SameEngine(before, after)
  }

  predicate HasEdges(db: Db, node: Id) {
    exists e <- db.edges :: db.edges[e].source == node || db.edges[e].target == node
  }

  predicate HasAttempts(db: Db, instance: Id) {
    exists a <- db.attempts :: db.attempts[a].instance == instance
  }

  predicate HasLog(db: Db, instance: Id) {
    exists e <- db.events :: e.instance == instance
  }

  /** An instance that has attempts keeps its version, and one that has attempts or events keeps its id. */
  predicate InstanceMayMove(db: Db, but: set<Id>, id: Id, row: Instance)
    requires but <= db.instances.Keys
  {
    forall i <- but ::
      && (i == id || (!HasAttempts(db, i) && !HasLog(db, i)))
      && (row.version == db.instances[i].version || !HasAttempts(db, i))
  }

  /** The number after the last one that the instance has for the node. */
  ghost predicate NextAttempt(db: Db, row: Attempt, n: int) {
    && n > 0
    && (n == 1 || exists a <- db.attempts ::
          db.attempts[a].instance == row.instance && db.attempts[a].node == row.node && db.attempts[a].attempt == n - 1)
    && forall a <- db.attempts | db.attempts[a].instance == row.instance && db.attempts[a].node == row.node ::
         db.attempts[a].attempt < n
  }

  predicate HasTask(db: Db, attempt: Id) {
    exists t <- db.tasks :: db.tasks[t].attempt == attempt
  }

  predicate IsLogged(db: Db, attempt: Id) {
    exists e <- db.events :: e.attempt == Some(attempt)
  }

  /** An attempt that has a task or an event keeps its id and instance; one that has a task keeps its version. */
  predicate AttemptMayMove(db: Db, but: set<Id>, id: Id, row: Attempt)
    requires but <= db.attempts.Keys
  {
    forall a <- but ::
      && ((a == id && row.instance == db.attempts[a].instance) || (!HasTask(db, a) && !IsLogged(db, a)))
      && (row.version == db.attempts[a].version || !HasTask(db, a))
  }

  /** The number is assigned; it must be within the row's own maximum, and never clashes. */
  predicate AttemptStarts(db: Db, row: Attempt, number: int) {
    && InstanceOf(db.instances, row.instance, row.version) && NodeOf(db.nodes, row.node, row.version)
    && number <= row.maxAttempts
    && forall a <- db.attempts | db.attempts[a].instance == row.instance ::
         db.attempts[a].idempotencyKey != row.idempotencyKey
  }

  predicate EventAttemptOk(attempts: map<Id, Attempt>, e: Event) {
    e.attempt.Some? ==> e.attempt.value in attempts && attempts[e.attempt.value].instance == e.instance
  }

  predicate EventFits(db: Db, row: Event) {
    && row.instance in db.instances && row.kind != "" && EventAttemptOk(db.attempts, row)
    && forall e <- db.events :: e.id != row.id && !(e.instance == row.instance && e.idempotencyKey == row.idempotencyKey)
  }

  /** The table without one row. */
  function Less<T>(m: map<Id, T>, id: Id): map<Id, T> {
    map k | k in m && k != id :: m[k]
  }

  /** The edges that neither start nor end at the node. */
  function EdgesOff(db: Db, node: Id): map<Id, Edge> {
    map e | e in db.edges && db.edges[e].source != node && db.edges[e].target != node :: db.edges[e]
  }

  function AttemptsOfOthers(db: Db, instance: Id): map<Id, Attempt> {
    map a | a in db.attempts && db.attempts[a].instance != instance :: db.attempts[a]
  }

  function TasksOfOthers(db: Db, instance: Id): map<Id, Task> {
    map t | t in db.tasks && db.tasks[t].instance != instance :: db.tasks[t]
  }

  function TasksOff(db: Db, attempt: Id): map<Id, Task> {
    map t | t in db.tasks && db.tasks[t].attempt != attempt :: db.tasks[t]
  }

  // Statements on definitions, versions and reviews. An UPDATE or DELETE that reaches no row commits without effect.

  ghost predicate VersionCommits(db: Db, s: Statement)
    requires OnVersionTables(s)
  {
    match s
    case InsertDefinition(id, row) => id !in db.definitions && DefinitionFits(db, {}, row)
    case UpdateDefinition(id, newId, row) =>
      id in db.definitions ==>
        && KeyFree(db.definitions, id, newId) && DefinitionFits(db, {id}, row)
        && (newId != id ==> forall v <- db.versions :: db.versions[v].definition != id)
    case DeleteDefinition(id) =>
      id in db.definitions ==> forall v <- db.versions | db.versions[v].definition == id :: Deletable(db, v)
    case InsertVersion(id, row) => id !in db.versions && Insertable(db, row)
    case UpdateVersion(id, newId, row) =>
      id in db.versions ==>
        && db.versions[id].publication.Draft? && KeyFree(db.versions, id, newId) && DraftMayMove(db, id, newId)
        && VersionFits(db, {id}, row.(revision := db.versions[id].revision + 1))
    case DeleteVersion(id) => id in db.versions ==> Deletable(db, id)
    case InsertReview(id, row) => id !in db.reviews && row.version in db.versions && row.revision > 0 && row.reviewer != ""
    case UpdateReview(id, _, _) => id !in db.reviews
    case DeleteReview(id) => id !in db.reviews
  }

  ghost predicate VersionLeaves(db: Db, s: Statement, next: Db)
    requires OnVersionTables(s)
  {
    match s
    case InsertDefinition(id, row) => Put(db.definitions, next.definitions, id, row) && next == db.(definitions := next.definitions)
    case UpdateDefinition(id, newId, row) =>
      if id !in db.definitions then next == db
      else Replaced(db.definitions, next.definitions, id, newId, row) && next == db.(definitions := next.definitions)
    case DeleteDefinition(id) =>
      if id !in db.definitions then next == db
      else
        && LeftWithout(db, next, set v | v in db.versions && db.versions[v].definition == id)
        && next.definitions == Less(db.definitions, id)
    case InsertVersion(id, row) =>
      && id in next.versions && Put(db.versions, next.versions, id, row.(number := next.versions[id].number))
      && NextVersion(db, row, next.versions[id].number) && next == db.(versions := next.versions)
    case UpdateVersion(id, newId, row) =>
      if id !in db.versions then next == db
      else
        && Replaced(db.versions, next.versions, id, newId, row.(revision := db.versions[id].revision + 1))
        && next == db.(versions := next.versions)
    case DeleteVersion(id) =>
      if id !in db.versions then next == db else LeftWithout(db, next, {id}) && next.definitions == db.definitions
    case InsertReview(id, row) => Put(db.reviews, next.reviews, id, row) && next == db.(reviews := next.reviews)
    case UpdateReview(_, _, _) => next == db
    case DeleteReview(_) => next == db
  }

  ghost predicate VersionFaithful(db: Db, s: Statement, o: Outcome)
    requires OnVersionTables(s)
  {
    (o.Done? <==> VersionCommits(db, s)) && (o.Done? ==> VersionLeaves(db, s, o.db))
  }

  // Statements on nodes, edges and role bindings. An UPDATE or DELETE that reaches no row commits without effect.

  ghost predicate ContentCommits(db: Db, s: Statement)
    requires OnContentTables(s)
  {
    match s
    case InsertNode(id, row) => id !in db.nodes && !IsPublished(db.versions, row.version) && NodeFits(db, {}, row)
    case UpdateNode(id, newId, row) =>
      id in db.nodes ==>
        && KeyFree(db.nodes, id, newId) && NodeFits(db, {id}, row)
        && !IsPublished(db.versions, db.nodes[id].version) && !IsPublished(db.versions, row.version)
        && ((newId == id && row.version == db.nodes[id].version) || !HasEdges(db, id))
    case DeleteNode(id) => id in db.nodes ==> !IsPublished(db.versions, db.nodes[id].version)
    case InsertEdge(id, row) => id !in db.edges && !IsPublished(db.versions, row.version) && EdgeFits(db, {}, row)
    case UpdateEdge(id, newId, row) =>
      id in db.edges ==>
        && KeyFree(db.edges, id, newId) && EdgeFits(db, {id}, row)
        && !IsPublished(db.versions, db.edges[id].version) && !IsPublished(db.versions, row.version)
    case DeleteEdge(id) => id in db.edges ==> !IsPublished(db.versions, db.edges[id].version)
    case InsertBinding(id, row) => id !in db.bindings && !IsPublished(db.versions, row.version) && BindingFits(db, {}, row)
    case UpdateBinding(id, newId, row) =>
      id in db.bindings ==>
        && KeyFree(db.bindings, id, newId) && BindingFits(db, {id}, row)
        && !IsPublished(db.versions, db.bindings[id].version) && !IsPublished(db.versions, row.version)
    case DeleteBinding(id) => id in db.bindings ==> !IsPublished(db.versions, db.bindings[id].version)
  }

  ghost predicate ContentLeaves(db: Db, s: Statement, next: Db)
    requires OnContentTables(s)
  {
    match s
    case InsertNode(id, row) => Put(db.nodes, next.nodes, id, row) && next == db.(nodes := next.nodes)
    case UpdateNode(id, newId, row) =>
      if id !in db.nodes then next == db
      else Replaced(db.nodes, next.nodes, id, newId, row) && next == db.(nodes := next.nodes)
    case DeleteNode(id) =>
      if id !in db.nodes then next == db
      else
        && next.nodes == Less(db.nodes, id)
        && next.edges == EdgesOff(db, id)
        && next == db.(nodes := next.nodes, edges := next.edges)
    case InsertEdge(id, row) => Put(db.edges, next.edges, id, row) && next == db.(edges := next.edges)
    case UpdateEdge(id, newId, row) =>
      if id !in db.edges then next == db
      else Replaced(db.edges, next.edges, id, newId, row) && next == db.(edges := next.edges)
    case DeleteEdge(id) => next == db.(edges := Less(db.edges, id))
    case InsertBinding(id, row) => Put(db.bindings, next.bindings, id, row) && next == db.(bindings := next.bindings)
    case UpdateBinding(id, newId, row) =>
      if id !in db.bindings then next == db
      else Replaced(db.bindings, next.bindings, id, newId, row) && next == db.(bindings := next.bindings)
    case DeleteBinding(id) => next == db.(bindings := Less(db.bindings, id))
  }

  ghost predicate ContentFaithful(db: Db, s: Statement, o: Outcome)
    requires OnContentTables(s)
  {
    (o.Done? <==> ContentCommits(db, s)) && (o.Done? ==> ContentLeaves(db, s, o.db))
  }

  // Statements on instances and node attempts. An UPDATE or DELETE that reaches no row commits without effect.

  ghost predicate RunCommits(db: Db, s: Statement)
    requires OnRunTables(s)
  {
    match s
    case InsertInstance(id, row) => id !in db.instances && IsPublished(db.versions, row.version) && InstanceFits(db, {}, row)
    case UpdateInstance(id, newId, row, setsVersion) =>
      id in db.instances ==>
        var written := if setsVersion then row else row.(version := db.instances[id].version);
        && KeyFree(db.instances, id, newId) && (setsVersion ==> IsPublished(db.versions, row.version))
        && InstanceFits(db, {id}, written) && InstanceMayMove(db, {id}, newId, written)
    case DeleteInstance(id) => id in db.instances ==> !HasLog(db, id)
    case InsertAttempt(id, row) => id !in db.attempts && exists n :: NextAttempt(db, row, n) && AttemptStarts(db, row, n)
    case UpdateAttempt(id, newId, row) =>
      id in db.attempts ==>
        KeyFree(db.attempts, id, newId) && AttemptFits(db, {id}, row) && AttemptMayMove(db, {id}, newId, row)
    case DeleteAttempt(id) => id in db.attempts ==> !IsLogged(db, id)
  }

  ghost predicate RunLeaves(db: Db, s: Statement, next: Db)
    requires OnRunTables(s)
  {
    match s
    case InsertInstance(id, row) => Put(db.instances, next.instances, id, row) && next == db.(instances := next.instances)
    case UpdateInstance(id, newId, row, setsVersion) =>
      if id !in db.instances then next == db
      else
        var written := if setsVersion then row else row.(version := db.instances[id].version);
        Replaced(db.instances, next.instances, id, newId, written) && next == db.(instances := next.instances)
    case DeleteInstance(id) =>
      if id !in db.instances then next == db
      else
        && next.instances == Less(db.instances, id)
        && next.attempts == AttemptsOfOthers(db, id)
        && next.tasks == TasksOfOthers(db, id)
        && next == db.(instances := next.instances, attempts := next.attempts, tasks := next.tasks)
    case InsertAttempt(id, row) =>
      && id in next.attempts && Put(db.attempts, next.attempts, id, row.(attempt := next.attempts[id].attempt))
      && NextAttempt(db, row, next.attempts[id].attempt) && next == db.(attempts := next.attempts)
    case UpdateAttempt(id, newId, row) =>
      if id !in db.attempts then next == db
      else Replaced(db.attempts, next.attempts, id, newId, row) && next == db.(attempts := next.attempts)
    case DeleteAttempt(id) =>
      if id !in db.attempts then next == db
      else
        && next.attempts == Less(db.attempts, id)
        && next.tasks == TasksOff(db, id)
        && next == db.(attempts := next.attempts, tasks := next.tasks)
  }

  ghost predicate RunFaithful(db: Db, s: Statement, o: Outcome)
    requires OnRunTables(s)
  {
    (o.Done? <==> RunCommits(db, s)) && (o.Done? ==> RunLeaves(db, s, o.db))
  }

  // Statements on tasks and events. An UPDATE or DELETE that reaches no row commits without effect.

  predicate OnWorkTables(s: Statement) {
    s.InsertTask? || s.UpdateTask? || s.DeleteTask? || s.InsertEvent? || s.UpdateEvent? || s.DeleteEvent?
  }

  ghost predicate WorkCommits(db: Db, s: Statement)
    requires OnWorkTables(s)
  {
    match s
    case InsertTask(id, row) =>
      id !in db.tasks && TaskFits(db, {}, row) && row.binding in db.bindings && db.bindings[row.binding].version == row.version
    case UpdateTask(id, newId, row, setsBinding) =>
      id in db.tasks ==>
        var was := db.tasks[id];
        var written := if setsBinding then row else row.(binding := was.binding, version := was.version);
        && KeyFree(db.tasks, id, newId) && TaskFits(db, {id}, written)
        && (setsBinding ==> row.binding in db.bindings && db.bindings[row.binding].version == row.version)
    case DeleteTask(id) => true
    case InsertEvent(row) => EventFits(db, row)
    case UpdateEvent(id, _) => forall e <- db.events :: e.id != id
    case DeleteEvent(id) => forall e <- db.events :: e.id != id
  }

  ghost predicate WorkLeaves(db: Db, s: Statement, next: Db)
    requires OnWorkTables(s)
  {
    match s
    case InsertTask(id, row) => Put(db.tasks, next.tasks, id, row) && next == db.(tasks := next.tasks)
    case UpdateTask(id, newId, row, setsBinding) =>
      if id !in db.tasks then next == db
      else
        var was := db.tasks[id];
        var written := if setsBinding then row else row.(binding := was.binding, version := was.version);
        Replaced(db.tasks, next.tasks, id, newId, written) && next == db.(tasks := next.tasks)
    case DeleteTask(id) => next == db.(tasks := Less(db.tasks, id))
    case InsertEvent(row) => next == db.(events := db.events + [row.(sequence := |LogOf(db.events, row.instance)| + 1)])
    case UpdateEvent(_, _) => next == db
    case DeleteEvent(_) => next == db
  }

  ghost predicate WorkFaithful(db: Db, s: Statement, o: Outcome)
    requires OnWorkTables(s)
  {
    (o.Done? <==> WorkCommits(db, s)) && (o.Done? ==> WorkLeaves(db, s, o.db))
  }

  /** When a statement commits. */
  ghost predicate Commits(db: Db, s: Statement) {
    if OnVersionTables(s) then VersionCommits(db, s)
    else if OnContentTables(s) then ContentCommits(db, s)
    else if OnRunTables(s) then RunCommits(db, s)
    else WorkCommits(db, s)
  }

  /** What a committed statement leaves. */
  ghost predicate Leaves(db: Db, s: Statement, next: Db) {
    if OnVersionTables(s) then VersionLeaves(db, s, next)
    else if OnContentTables(s) then ContentLeaves(db, s, next)
    else if OnRunTables(s) then RunLeaves(db, s, next)
    else WorkLeaves(db, s, next)
  }

  // ---- Constraints, one row at a time ----

  /** The table with the rows `but` taken out and this one put in: an INSERT takes out none, an UPDATE the row itself. */
  function With<T>(m: map<Id, T>, but: set<Id>, id: Id, row: T): map<Id, T> {
    (m - but)[id := row]
  }

  lemma UniqueWith<T, K>(m: map<Id, T>, but: set<Id>, id: Id, row: T, key: T -> K)
    requires Unique(m, key) && id !in m - but
    ensures Unique(With(m, but, id, row), key) <==> forall k <- m | k !in but :: key(m[k]) != key(row)
  {
    var more := With(m, but, id, row);
    assert more[id] == row;
    assert forall k <- m | k !in but :: k in more && more[k] == m[k];
  }

  lemma DefinitionsWith(db: Db, but: set<Id>, id: Id, row: Definition)
    requires DefinitionConstraints(db.definitions) && id !in db.definitions - but
    ensures DefinitionConstraints(With(db.definitions, but, id, row)) <==> DefinitionFits(db, but, row)
  {
    UniqueWith(db.definitions, but, id, row, ScopeSlug);
    var more := With(db.definitions, but, id, row);
    assert more[id] == row;
    assert forall k <- db.definitions | k !in but :: k in more && more[k] == db.definitions[k];
    hide Unique;
  }

  lemma VersionsWith(db: Db, but: set<Id>, id: Id, row: Version)
    requires VersionConstraints(db.definitions, db.versions) && id !in db.versions - but
    ensures VersionConstraints(db.definitions, With(db.versions, but, id, row)) <==> VersionFits(db, but, row)
  {
    UniqueWith(db.versions, but, id, row, VersionKey);
    var more := With(db.versions, but, id, row);
    assert more[id] == row;
    assert forall k <- db.versions | k !in but :: k in more && more[k] == db.versions[k];
    hide Unique, IsContentHash;
  }

  lemma NodesWith(db: Db, but: set<Id>, id: Id, row: Node)
    requires NodeConstraints(db.versions, db.nodes) && id !in db.nodes - but
    ensures NodeConstraints(db.versions, With(db.nodes, but, id, row)) <==> NodeFits(db, but, row)
  {
    UniqueWith(db.nodes, but, id, row, NodeKey);
    var more := With(db.nodes, but, id, row);
    assert more[id] == row;
    assert forall k <- db.nodes | k !in but :: k in more && more[k] == db.nodes[k];
    hide Unique;
  }

  lemma EdgesWith(db: Db, but: set<Id>, id: Id, row: Edge)
    requires EdgeConstraints(db.versions, db.nodes, db.edges) && id !in db.edges - but
    ensures EdgeConstraints(db.versions, db.nodes, With(db.edges, but, id, row)) <==> EdgeFits(db, but, row)
  {
    UniqueWith(db.edges, but, id, row, EdgeKey);
    var more := With(db.edges, but, id, row);
    assert more[id] == row;
    assert forall k <- db.edges | k !in but :: k in more && more[k] == db.edges[k];
    hide Unique;
  }

  lemma BindingsWith(db: Db, but: set<Id>, id: Id, row: Binding)
    requires BindingConstraints(db.versions, db.bindings) && id !in db.bindings - but
    ensures BindingConstraints(db.versions, With(db.bindings, but, id, row)) <==> BindingFits(db, but, row)
  {
    UniqueWith(db.bindings, but, id, row, RoleKey);
    var more := With(db.bindings, but, id, row);
    assert more[id] == row;
    assert forall k <- db.bindings | k !in but :: k in more && more[k] == db.bindings[k];
    hide Unique;
  }

  lemma InstancesWith(db: Db, but: set<Id>, id: Id, row: Instance)
    requires InstanceConstraints(db.versions, db.instances) && id !in db.instances - but
    ensures InstanceConstraints(db.versions, With(db.instances, but, id, row)) <==> InstanceFits(db, but, row)
  {
    UniqueWith(db.instances, but, id, row, StartKey);
    var more := With(db.instances, but, id, row);
    assert more[id] == row;
    assert forall k <- db.instances | k !in but :: k in more && more[k] == db.instances[k];
    hide Unique;
  }

  lemma AttemptsWith(db: Db, but: set<Id>, id: Id, row: Attempt)
    requires AttemptConstraints(db.nodes, db.instances, db.attempts) && id !in db.attempts - but
    ensures AttemptConstraints(db.nodes, db.instances, With(db.attempts, but, id, row)) <==> AttemptFits(db, but, row)
  {
    UniqueWith(db.attempts, but, id, row, AttemptKey);
    UniqueWith(db.attempts, but, id, row, AttemptIdempotency);
    var more := With(db.attempts, but, id, row);
    assert more[id] == row;
    assert forall k <- db.attempts | k !in but :: k in more && more[k] == db.attempts[k];
    hide Unique;
  }

  lemma TasksWith(db: Db, but: set<Id>, id: Id, row: Task)
    requires TaskConstraints(db.bindings, db.instances, db.attempts, db.tasks) && id !in db.tasks - but
    ensures TaskConstraints(db.bindings, db.instances, db.attempts, With(db.tasks, but, id, row)) <==> TaskFits(db, but, row)
  {
    UniqueWith(db.tasks, but, id, row, TaskAttempt);
    UniqueWith(db.tasks, but, id, row, TaskIdempotency);
    var more := With(db.tasks, but, id, row);
    assert more[id] == row;
    assert forall k <- db.tasks | k !in but :: k in more && more[k] == db.tasks[k];
    hide Unique;
  }

  // ---- Definitions ----

  lemma DefinitionWriteFits(db: Db, but: set<Id>, id: Id, row: Definition)
    requires Inv(db) && id !in db.definitions - but && but <= db.definitions.Keys
    ensures Constraints(db.(definitions := With(db.definitions, but, id, row)))
            <==> DefinitionFits(db, but, row)
                 && forall v <- db.versions | db.versions[v].definition in but :: db.versions[v].definition == id
  {
    DefinitionsWith(db, but, id, row);
    DefinitionReferences(db, db.definitions);
    DefinitionReferences(db, With(db.definitions, but, id, row));
    assert Constraints(db);
    hide Inv, DefinitionFits;
    hide DefinitionConstraints, VersionConstraints, ReviewConstraints, NodeConstraints, EdgeConstraints,
         BindingConstraints, InstanceConstraints, AttemptConstraints, TaskConstraints, EventConstraints;
  }

  lemma DefinitionReferences(db: Db, definitions: map<Id, Definition>)
    requires VersionConstraints(db.definitions, db.versions)
    ensures VersionConstraints(definitions, db.versions) <==> forall v <- db.versions :: db.versions[v].definition in definitions
  {
    hide Unique, SingleDraft, IsContentHash;
  }

  lemma InsertDefinitionEffect(db: Db, id: Id, row: Definition)
    requires Inv(db)
    ensures VersionFaithful(db, Statement.InsertDefinition(id, row), AddDefinition(db, id, row))
  {
    hide Inv, Constraints, DefinitionFits;
    if id !in db.definitions {
      assert With(db.definitions, {}, id, row) == db.definitions[id := row];
      DefinitionWriteFits(db, {}, id, row);
    }
  }

  lemma UpdateDefinitionEffect(db: Db, id: Id, newId: Id, row: Definition)
    requires Inv(db) && id in db.definitions
    ensures VersionFaithful(db, Statement.UpdateDefinition(id, newId, row), ChangeDefinition(db, id, newId, row))
  {
    hide Inv, Constraints, DefinitionFits;
    if KeyFree(db.definitions, id, newId) {
      assert With(db.definitions, {id}, newId, row) == Moved(db.definitions, id, newId, row);
      DefinitionWriteFits(db, {id}, newId, row);
    }
  }

  // ---- Versions ----

  lemma VersionNumberIsNext(db: Db, row: Version)
    requires Inv(db)
    ensures NextVersion(db, row, MaxOrZero(VersionNumbers(db, row.definition)) + 1)
  {
    hide Unique, DefinitionConstraints, ReviewConstraints, NodeConstraints, EdgeConstraints, BindingConstraints,
         InstanceConstraints, AttemptConstraints, TaskConstraints, EventConstraints;
    var numbers := VersionNumbers(db, row.definition);
    forall v <- db.versions | db.versions[v].definition == row.definition ensures db.versions[v].number in numbers {}
    if numbers != {} {
      var v :| v in db.versions && db.versions[v].definition == row.definition && db.versions[v].number == MaxOrZero(numbers);
      assert VersionRowOk(db.definitions, db.versions[v]);
    }
  }

  /** The rows that reference versions still do when the versions they name are kept. */
  predicate VersionsNamed(db: Db, versions: map<Id, Version>) {
    && (forall r <- db.reviews :: db.reviews[r].version in versions)
    && (forall n <- db.nodes :: db.nodes[n].version in versions)
    && (forall e <- db.edges :: db.edges[e].version in versions)
    && (forall b <- db.bindings :: db.bindings[b].version in versions)
    && (forall i <- db.instances :: db.instances[i].version in versions)
  }

  lemma VersionReferences(db: Db, versions: map<Id, Version>)
    requires Constraints(db)
    ensures VersionsNamed(db, versions)
            <==> && ReviewConstraints(versions, db.reviews) && NodeConstraints(versions, db.nodes)
                 && EdgeConstraints(versions, db.nodes, db.edges) && BindingConstraints(versions, db.bindings)
                 && InstanceConstraints(versions, db.instances)
  {
    hide Unique, DefinitionConstraints, VersionConstraints, AttemptConstraints, TaskConstraints, EventConstraints;
    if VersionsNamed(db, versions) {
      forall e <- db.edges ensures EdgeRowOk(versions, db.nodes, db.edges[e]) {
        assert EdgeRowOk(db.versions, db.nodes, db.edges[e]);
      }
    } else if EdgeConstraints(versions, db.nodes, db.edges) {
      forall e <- db.edges ensures db.edges[e].version in versions {
        assert EdgeRowOk(versions, db.nodes, db.edges[e]);
      }
    }
  }

  /** A definition has at most one draft, so a draft is refused beside another one; the number never stands in the way. */
  lemma InsertVersionCommitsIff(db: Db, id: Id, row: Version)
    requires Inv(db)
    ensures AddVersion(db, id, row).Done?
            <==> id !in db.versions && Insertable(db, row)
  {
    NumberNeverRefuses(db, row);
    if id !in db.versions {
      AddedVersionFitsIff(db, id, row.(number := MaxOrZero(VersionNumbers(db, row.definition)) + 1));
    }
    hide Constraints, VersionFits, Inv, VersionNumbers, MaxOrZero, IsContentHash, Insertable;
  }

  lemma AddedVersionFitsIff(db: Db, id: Id, row: Version)
    requires Inv(db) && id !in db.versions
    ensures Constraints(db.(versions := db.versions[id := row])) <==> VersionFits(db, {}, row)
  {
    var more := db.versions[id := row];
    assert With(db.versions, {}, id, row) == more;
    VersionsWith(db, {}, id, row);
    VersionReferences(db, db.versions);
    VersionReferences(db, more);
    NamedIff(db, db.versions);
    NamedIff(db, more);
    hide VersionsNamed, NamesVersion, VersionFits, With;
    hide Unique, DefinitionConstraints, VersionConstraints, ReviewConstraints, NodeConstraints, EdgeConstraints,
         BindingConstraints, InstanceConstraints, AttemptConstraints, TaskConstraints, EventConstraints;
  }

  lemma InsertVersionEffect(db: Db, id: Id, row: Version)
    requires Inv(db) && AddVersion(db, id, row).Done?
    ensures var next := AddVersion(db, id, row).db;
            && id !in db.versions && id in next.versions
            && Put(db.versions, next.versions, id, row.(number := next.versions[id].number))
            && next == db.(versions := next.versions)
            && NextVersion(db, row, next.versions[id].number)
  {
    VersionNumberIsNext(db, row);
    hide VersionNumbers, MaxOrZero, Constraints, NextVersion;
  }

  lemma NumberNeverRefuses(db: Db, row: Version)
    requires Inv(db)
    ensures VersionFits(db, {}, row.(number := MaxOrZero(VersionNumbers(db, row.definition)) + 1))
            <==> Insertable(db, row)
  {
    VersionNumberIsNext(db, row);
    hide Inv, VersionNumbers, MaxOrZero, IsContentHash;
  }

  /** An update that reaches a draft stores the given row with the revision counted up by one, under the new id. */
  lemma UpdateDraftEffect(db: Db, id: Id, newId: Id, row: Version)
    requires Inv(db) && id in db.versions && db.versions[id].publication.Draft?
    ensures VersionFaithful(db, Statement.UpdateVersion(id, newId, row), ChangeVersion(db, id, newId, row))
  {
    hide Inv, Constraints, VersionFits, DraftMayMove;
    if KeyFree(db.versions, id, newId) {
      MovedDraftFitsIff(db, id, newId, row.(revision := db.versions[id].revision + 1));
    }
  }

  lemma MovedDraftFitsIff(db: Db, id: Id, newId: Id, row: Version)
    requires Inv(db) && id in db.versions && db.versions[id].publication.Draft? && KeyFree(db.versions, id, newId)
    ensures Constraints(db.(versions := Moved(db.versions, id, newId, row))) <==> VersionFits(db, {id}, row) && DraftMayMove(db, id, newId)
  {
    assert With(db.versions, {id}, newId, row) == Moved(db.versions, id, newId, row);
    VersionsWith(db, {id}, newId, row);
    VersionReferences(db, db.versions);
    VersionReferences(db, With(db.versions, {id}, newId, row));
    DraftNamedIff(db, id, newId, row);
    assert Constraints(db);
    hide VersionFits, VersionsNamed, Inv, With, DraftMayMove;
    hide Unique, DefinitionConstraints, VersionConstraints, ReviewConstraints, NodeConstraints, EdgeConstraints,
         BindingConstraints, InstanceConstraints, AttemptConstraints, TaskConstraints, EventConstraints;
  }

  /** Edges need no mention: their ends are nodes of the same version. */
  lemma DraftNamedIff(db: Db, id: Id, newId: Id, row: Version)
    requires Inv(db) && id in db.versions && db.versions[id].publication.Draft? && VersionsNamed(db, db.versions)
    ensures VersionsNamed(db, With(db.versions, {id}, newId, row))
            <==> DraftMayMove(db, id, newId)
  {
    NoEngineRowsOfDrafts(db, id);
    EdgesFollowTheirNodes(db);
    hide Inv, NodeOf, BindingOf, VersionsNamed;
    var more := With(db.versions, {id}, newId, row);
    NamedAfterMove(db, id, newId, more);
  }

  predicate NamesVersion(db: Db, v: Id) {
    || (exists r <- db.reviews :: db.reviews[r].version == v) || (exists n <- db.nodes :: db.nodes[n].version == v)
    || (exists e <- db.edges :: db.edges[e].version == v) || (exists b <- db.bindings :: db.bindings[b].version == v)
    || (exists i <- db.instances :: db.instances[i].version == v)
  }

  lemma NamedIff(db: Db, versions: map<Id, Version>)
    ensures VersionsNamed(db, versions) <==> forall v :: NamesVersion(db, v) ==> v in versions
  {
    if forall v :: NamesVersion(db, v) ==> v in versions {
      forall r <- db.reviews ensures db.reviews[r].version in versions { assert NamesVersion(db, db.reviews[r].version); }
      forall n <- db.nodes ensures db.nodes[n].version in versions { assert NamesVersion(db, db.nodes[n].version); }
      forall e <- db.edges ensures db.edges[e].version in versions { assert NamesVersion(db, db.edges[e].version); }
      forall b <- db.bindings ensures db.bindings[b].version in versions { assert NamesVersion(db, db.bindings[b].version); }
      forall i <- db.instances ensures db.instances[i].version in versions { assert NamesVersion(db, db.instances[i].version); }
    }
  }

  lemma NamedAfterMove(db: Db, id: Id, newId: Id, more: map<Id, Version>)
    requires VersionsNamed(db, db.versions)
    requires forall v :: v in more <==> v == newId || (v in db.versions && v != id)
    ensures VersionsNamed(db, more) <==> newId != id ==> !NamesVersion(db, id)
  {
    hide VersionsNamed, NamesVersion;
    NamedIff(db, db.versions);
    NamedIff(db, more);
  }

  lemma EdgesFollowTheirNodes(db: Db)
    requires Inv(db)
    ensures forall e <- db.edges ::
              db.edges[e].source in db.nodes && db.nodes[db.edges[e].source].version == db.edges[e].version
  {
    hide Unique, DefinitionConstraints, VersionConstraints, ReviewConstraints, NodeConstraints, BindingConstraints,
         InstanceConstraints, AttemptConstraints, TaskConstraints, EventConstraints;
    forall e <- db.edges
      ensures db.edges[e].source in db.nodes && db.nodes[db.edges[e].source].version == db.edges[e].version
    {
      assert EdgeRowOk(db.versions, db.nodes, db.edges[e]);
    }
  }

  lemma NoEngineRowsOfDrafts(db: Db, v: Id)
    requires Inv(db) && v in db.versions && db.versions[v].publication.Draft?
    ensures forall i <- db.instances :: db.instances[i].version != v
    ensures forall a <- db.attempts :: db.attempts[a].version != v && !NodeOf(db.nodes, db.attempts[a].node, v)
    ensures forall t <- db.tasks :: db.tasks[t].version != v && !BindingOf(db, db.tasks[t].binding, v)
  {
    hide Unique, DefinitionConstraints, VersionConstraints, ReviewConstraints, NodeConstraints, EdgeConstraints,
         BindingConstraints, InstanceConstraints, EventConstraints;
    forall a <- db.attempts ensures db.attempts[a].version != v && !NodeOf(db.nodes, db.attempts[a].node, v) {
      assert AttemptRowOk(db.nodes, db.instances, db.attempts[a]);
    }
    forall t <- db.tasks ensures db.tasks[t].version != v && !BindingOf(db, db.tasks[t].binding, v) {
      assert TaskRowOk(db.bindings, db.instances, db.attempts, db.tasks[t]);
    }
  }

  lemma PublishedVersionIsFixed(db: Db, id: Id, newId: Id, row: Version)
    requires IsPublished(db.versions, id)
    ensures ChangeVersion(db, id, newId, row).Raised? && DropVersion(db, id).Raised?
  {
  }

  lemma HeldIffNotDeletable(db: Db, v: Id)
    requires Inv(db) && v in db.versions
    ensures VersionRowHeld(db, v) <==> !Deletable(db, v)
  {
    if db.versions[v].publication.Draft? {
      NoEngineRowsOfDrafts(db, v);
    }
    hide Inv;
  }

  /** Of an edge's version and its ends' versions, none is among these if the first is not. */
  lemma EdgesFollowTheirVersion(db: Db, vs: set<Id>)
    requires Inv(db)
    ensures forall e <- db.edges :: TouchesVersions(db, db.edges[e], vs) ==> db.edges[e].version in vs
  {
    hide Unique, DefinitionConstraints, VersionConstraints, ReviewConstraints, NodeConstraints, BindingConstraints,
         InstanceConstraints, AttemptConstraints, TaskConstraints, EventConstraints;
    forall e <- db.edges ensures TouchesVersions(db, db.edges[e], vs) ==> db.edges[e].version in vs {
      assert EdgeRowOk(db.versions, db.nodes, db.edges[e]);
    }
  }

  lemma WithoutLeavesWithout(db: Db, vs: set<Id>)
    requires Inv(db)
    ensures LeftWithout(db, WithoutVersions(db, vs), vs)
  {
    WithoutLeavesEdges(db, vs);
    WithoutLeavesVersions(db, vs);
    hide Inv, WithoutVersions;
  }

  lemma WithoutLeavesVersions(db: Db, vs: set<Id>)
    ensures var left := WithoutVersions(db, vs);
            && left.versions == (map v | v in db.versions && v !in vs :: db.versions[v])
            && left.nodes == (map n | n in db.nodes && db.nodes[n].version !in vs :: db.nodes[n])
            && left.bindings == (map b | b in db.bindings && db.bindings[b].version !in vs :: db.bindings[b])
            && left.reviews == db.reviews && SameEngine(db, left)
  {
    hide TouchesVersions;
  }

  lemma WithoutLeavesEdges(db: Db, vs: set<Id>)
    requires Inv(db)
    ensures WithoutVersions(db, vs).edges == map e | e in db.edges && db.edges[e].version !in vs :: db.edges[e]
  {
    EdgesFollowTheirVersion(db, vs);
    hide Inv, TouchesVersions;
    var left := WithoutVersions(db, vs).edges;
    assert forall e :: e in left <==> e in db.edges && db.edges[e].version !in vs;
    assert forall e <- left :: left[e] == db.edges[e];
    hide WithoutVersions;
  }

  lemma DeleteVersionEffect(db: Db, id: Id)
    requires Inv(db) && id in db.versions
    ensures VersionFaithful(db, Statement.DeleteVersion(id), DropVersion(db, id))
  {
    HeldIffNotDeletable(db, id);
    WithoutLeavesWithout(db, {id});
    hide Inv, VersionRowHeld, LeftWithout, Deletable;
  }

  /** A definition can be deleted exactly when each of its versions can, and they all go with it. */
  lemma DeleteDefinitionEffect(db: Db, id: Id)
    requires Inv(db) && id in db.definitions
    ensures VersionFaithful(db, Statement.DeleteDefinition(id), DropDefinition(db, id))
  {
    DefinitionHeldIff(db, id);
    hide Inv, Deletable, VersionDeleteRefused;
    if DropDefinition(db, id).Done? { DefinitionDropped(db, id); }
    hide LeftWithout;
  }

  lemma DefinitionHeldIff(db: Db, id: Id)
    requires Inv(db)
    ensures VersionDeleteRefused(db, VersionsOf(db, id))
            <==> !forall v <- db.versions | db.versions[v].definition == id :: Deletable(db, v)
  {
    forall v <- db.versions ensures VersionRowHeld(db, v) <==> !Deletable(db, v) {
      HeldIffNotDeletable(db, v);
    }
    hide Inv, VersionRowHeld, Deletable;
    if v :| v in db.versions && db.versions[v].definition == id && !Deletable(db, v) {
      assert v in VersionsOf(db, id) && VersionRowHeld(db, v);
    }
  }

  lemma DefinitionDropped(db: Db, id: Id)
    requires Inv(db) && id in db.definitions && DropDefinition(db, id).Done?
    ensures var next := DropDefinition(db, id).db;
            && LeftWithout(db, next, set v | v in db.versions && db.versions[v].definition == id)
            && next.definitions == Less(db.definitions, id)
  {
    var vs := set v | v in db.versions && db.versions[v].definition == id;
    assert vs == VersionsOf(db, id);
    WithoutLeavesWithout(db, vs);
    hide Inv, VersionDeleteRefused, WithoutVersions;
    RemovedIsLess(db.definitions, id);
  }

  // ---- Reviews ----

  lemma InsertReviewEffect(db: Db, id: Id, row: Review)
    requires Inv(db)
    ensures VersionFaithful(db, Statement.InsertReview(id, row), AddReview(db, id, row))
  {
    hide Unique, DefinitionConstraints, VersionConstraints, NodeConstraints, EdgeConstraints, BindingConstraints,
         InstanceConstraints, AttemptConstraints, TaskConstraints, EventConstraints;
    var more := db.reviews[id := row];
    assert id in more && more[id] == row;
    assert id !in db.reviews ==> forall r <- db.reviews :: more[r] == db.reviews[r];
  }

  // ---- Nodes ----

  lemma NodeReferences(db: Db, nodes: map<Id, Node>)
    requires Constraints(db)
    ensures EdgeConstraints(db.versions, nodes, db.edges)
            <==> forall e <- db.edges ::
                   NodeOf(nodes, db.edges[e].source, db.edges[e].version) && NodeOf(nodes, db.edges[e].target, db.edges[e].version)
    ensures AttemptConstraints(nodes, db.instances, db.attempts)
            <==> forall a <- db.attempts :: NodeOf(nodes, db.attempts[a].node, db.attempts[a].version)
  {
    hide Unique, DefinitionConstraints, VersionConstraints, ReviewConstraints, NodeConstraints, BindingConstraints,
         InstanceConstraints, TaskConstraints, EventConstraints, NodeOf, InstanceOf;
  }

  /** The node keeps its id and version, or nothing hangs on it. */
  predicate NodeMayMove(db: Db, but: set<Id>, id: Id, row: Node)
    requires but <= db.nodes.Keys
  {
    forall n <- but :: (n == id && row.version == db.nodes[n].version) || !HasEdges(db, n)
  }

  lemma NodesStayReferenced(db: Db, but: set<Id>, id: Id, row: Node)
    requires Constraints(db) && id !in db.nodes - but && but <= db.nodes.Keys
    requires forall a <- db.attempts :: db.attempts[a].node !in but
    ensures var more := With(db.nodes, but, id, row);
            && AttemptConstraints(more, db.instances, db.attempts)
            && (NodeMayMove(db, but, id, row) ==> EdgeConstraints(db.versions, more, db.edges))
  {
    var more := With(db.nodes, but, id, row);
    NodeReferences(db, db.nodes);
    NodeReferences(db, more);
    hide Unique, DefinitionConstraints, VersionConstraints, ReviewConstraints, NodeConstraints, EdgeConstraints,
         BindingConstraints, InstanceConstraints, AttemptConstraints, TaskConstraints, EventConstraints;
    forall a <- db.attempts ensures NodeOf(more, db.attempts[a].node, db.attempts[a].version) {
      assert NodeOf(db.nodes, db.attempts[a].node, db.attempts[a].version);
    }
    if NodeMayMove(db, but, id, row) {
      forall e <- db.edges
        ensures NodeOf(more, db.edges[e].source, db.edges[e].version) && NodeOf(more, db.edges[e].target, db.edges[e].version)
      {
        EndsStay(db, but, id, row, e);
      }
    }
  }

  lemma EndsStay(db: Db, but: set<Id>, id: Id, row: Node, e: Id)
    requires but <= db.nodes.Keys && id !in db.nodes - but && NodeMayMove(db, but, id, row) && e in db.edges
    requires NodeOf(db.nodes, db.edges[e].source, db.edges[e].version)
    requires NodeOf(db.nodes, db.edges[e].target, db.edges[e].version)
    ensures var more := With(db.nodes, but, id, row);
            NodeOf(more, db.edges[e].source, db.edges[e].version) && NodeOf(more, db.edges[e].target, db.edges[e].version)
  {
    assert HasEdges(db, db.edges[e].source) && HasEdges(db, db.edges[e].target);
  }

  lemma MovedNodeLosesEdges(db: Db, id: Id, newId: Id, row: Node)
    requires Constraints(db) && id in db.nodes && KeyFree(db.nodes, id, newId)
    requires HasEdges(db, id) && !(newId == id && row.version == db.nodes[id].version)
    ensures !EdgeConstraints(db.versions, With(db.nodes, {id}, newId, row), db.edges)
  {
    var more := With(db.nodes, {id}, newId, row);
    NodeReferences(db, db.nodes);
    NodeReferences(db, more);
    hide Unique, DefinitionConstraints, VersionConstraints, ReviewConstraints, NodeConstraints, EdgeConstraints,
         BindingConstraints, InstanceConstraints, AttemptConstraints, TaskConstraints, EventConstraints;
    var e :| e in db.edges && (db.edges[e].source == id || db.edges[e].target == id);
    assert NodeOf(db.nodes, id, db.edges[e].version) && !NodeOf(more, id, db.edges[e].version);
  }

  predicate AtMostOne(ids: set<Id>) {
    forall x <- ids, y <- ids :: x == y
  }

  lemma NodeMoveRefused(db: Db, but: set<Id>, id: Id, row: Node)
    requires Constraints(db) && id !in db.nodes - but && but <= db.nodes.Keys && AtMostOne(but)
    requires !NodeMayMove(db, but, id, row)
    ensures !EdgeConstraints(db.versions, With(db.nodes, but, id, row), db.edges)
  {
    hide Constraints;
    var replaced :| replaced in but;
    assert but == {replaced};
    MovedNodeLosesEdges(db, replaced, id, row);
  }

  lemma NodeWriteFits(db: Db, but: set<Id>, id: Id, row: Node)
    requires Inv(db) && id !in db.nodes - but && but <= db.nodes.Keys && AtMostOne(but)
    requires forall n <- but :: !IsPublished(db.versions, db.nodes[n].version)
    ensures Constraints(db.(nodes := With(db.nodes, but, id, row))) <==> NodeFits(db, but, row) && NodeMayMove(db, but, id, row)
  {
    NodesWith(db, but, id, row);
    DraftNodesHaveNoAttempts(db, but);
    NodesStayReferenced(db, but, id, row);
    if !NodeMayMove(db, but, id, row) {
      NodeMoveRefused(db, but, id, row);
    }
    assert Constraints(db);
    hide Inv, NodeFits, With, NodeMayMove;
    hide Unique, DefinitionConstraints, VersionConstraints, ReviewConstraints, NodeConstraints, EdgeConstraints,
         BindingConstraints, InstanceConstraints, AttemptConstraints, TaskConstraints, EventConstraints;
  }

  lemma DraftNodesHaveNoAttempts(db: Db, but: set<Id>)
    requires Inv(db) && but <= db.nodes.Keys && forall n <- but :: !IsPublished(db.versions, db.nodes[n].version)
    ensures forall a <- db.attempts :: db.attempts[a].node !in but
  {
    hide Unique, DefinitionConstraints, VersionConstraints, ReviewConstraints, NodeConstraints, EdgeConstraints,
         BindingConstraints, InstanceConstraints, TaskConstraints, EventConstraints, EventsSequenced;
    forall a <- db.attempts ensures db.attempts[a].node !in but {
      assert AttemptRowOk(db.nodes, db.instances, db.attempts[a]);
    }
  }

  lemma InsertNodeEffect(db: Db, id: Id, row: Node)
    requires Inv(db)
    ensures ContentFaithful(db, Statement.InsertNode(id, row), AddNode(db, id, row))
  {
    hide Inv, Constraints, NodeFits, IsPublished, BindingOf;
    if id !in db.nodes {
      assert With(db.nodes, {}, id, row) == db.nodes[id := row];
      NodeWriteFits(db, {}, id, row);
    }
  }

  /** A node that has edges can change neither its id nor its version. */
  lemma UpdateNodeEffect(db: Db, id: Id, newId: Id, row: Node)
    requires Inv(db) && id in db.nodes
    ensures ContentFaithful(db, Statement.UpdateNode(id, newId, row), ChangeNode(db, id, newId, row))
  {
    hide Inv, Constraints, NodeFits, IsPublished;
    if KeyFree(db.nodes, id, newId) && !IsPublished(db.versions, db.nodes[id].version) {
      assert With(db.nodes, {id}, newId, row) == Moved(db.nodes, id, newId, row);
      NodeWriteFits(db, {id}, newId, row);
    }
  }

  /** A node of a draft can always be deleted; its edges, and only its edges, go with it. */
  lemma DeleteNodeEffect(db: Db, id: Id)
    requires Inv(db) && id in db.nodes
    ensures ContentFaithful(db, Statement.DeleteNode(id), DropNode(db, id))
  {
    if !IsPublished(db.versions, db.nodes[id].version) {
      DraftNodesHaveNoAttempts(db, {id});
    }
    EdgesAtShareVersion(db, id);
    hide Inv, IsPublished, EdgesAt, Less, EdgesOff;
    if DropNode(db, id).Done? { NodeDropped(db, id); }
  }

  lemma NodeDropped(db: Db, id: Id)
    requires id in db.nodes && DropNode(db, id).Done?
    ensures DropNode(db, id).db == db.(nodes := Less(db.nodes, id), edges := EdgesOff(db, id))
  {
    hide IsPublished, ContentFrozen;
    RemovedIsLess(db.nodes, id);
    assert db.edges - EdgesAt(db, id) == EdgesOff(db, id);
    hide Less, EdgesOff;
  }

  lemma EdgesAtShareVersion(db: Db, id: Id)
    requires Inv(db) && id in db.nodes
    ensures forall e <- EdgesAt(db, id) :: db.edges[e].version == db.nodes[id].version
  {
    hide Unique, DefinitionConstraints, VersionConstraints, ReviewConstraints, NodeConstraints, BindingConstraints,
         InstanceConstraints, AttemptConstraints, TaskConstraints, EventConstraints, InstancesRunPublished,
         TasksBoundInVersion, EventsSequenced;
    forall e <- EdgesAt(db, id) ensures db.edges[e].version == db.nodes[id].version {
      assert EdgeRowOk(db.versions, db.nodes, db.edges[e]);
    }
  }

  // ---- Edges ----

  lemma EdgeWriteFits(db: Db, but: set<Id>, id: Id, row: Edge)
    requires Inv(db) && id !in db.edges - but
    ensures Constraints(db.(edges := With(db.edges, but, id, row))) <==> EdgeFits(db, but, row)
  {
    EdgesWith(db, but, id, row);
    hide EdgeFits, With, InstancesRunPublished, TasksBoundInVersion, EventsSequenced;
    hide Unique, DefinitionConstraints, VersionConstraints, ReviewConstraints, NodeConstraints, EdgeConstraints,
         BindingConstraints, InstanceConstraints, AttemptConstraints, TaskConstraints, EventConstraints;
  }

  lemma InsertEdgeEffect(db: Db, id: Id, row: Edge)
    requires Inv(db)
    ensures ContentFaithful(db, Statement.InsertEdge(id, row), AddEdge(db, id, row))
  {
    hide Inv, Constraints, EdgeFits, IsPublished, BindingOf;
    if id !in db.edges {
      assert With(db.edges, {}, id, row) == db.edges[id := row];
      EdgeWriteFits(db, {}, id, row);
    }
  }

  lemma UpdateEdgeEffect(db: Db, id: Id, newId: Id, row: Edge)
    requires Inv(db) && id in db.edges
    ensures ContentFaithful(db, Statement.UpdateEdge(id, newId, row), ChangeEdge(db, id, newId, row))
  {
    hide Inv, Constraints, EdgeFits, IsPublished;
    if KeyFree(db.edges, id, newId) && !IsPublished(db.versions, db.edges[id].version) {
      assert With(db.edges, {id}, newId, row) == Moved(db.edges, id, newId, row);
      EdgeWriteFits(db, {id}, newId, row);
    }
  }

  lemma RemovedIsLess<T>(m: map<Id, T>, id: Id)
    ensures m - {id} == Less(m, id)
    ensures id !in m ==> Less(m, id) == m
  {
  }

  lemma DeleteEdgeEffect(db: Db, id: Id)
    ensures ContentFaithful(db, Statement.DeleteEdge(id), DropEdge(db, id))
  {
    RemovedIsLess(db.edges, id);
    hide Less, IsPublished;
  }

  // ---- Role bindings ----

  lemma BindingReferences(db: Db, bindings: map<Id, Binding>)
    requires Constraints(db) && forall t <- db.tasks :: db.tasks[t].binding in bindings
    ensures TaskConstraints(bindings, db.instances, db.attempts, db.tasks)
  {
    hide Unique, DefinitionConstraints, VersionConstraints, ReviewConstraints, NodeConstraints, EdgeConstraints,
         BindingConstraints, InstanceConstraints, AttemptConstraints, EventConstraints, InstanceOf;
  }

  lemma TasksElsewhere(db: Db, but: set<Id>)
    requires Inv(db) && but <= db.bindings.Keys && forall b <- but :: !IsPublished(db.versions, db.bindings[b].version)
    ensures forall t <- db.tasks :: db.tasks[t].binding in db.bindings && db.tasks[t].binding !in but
  {
    hide Constraints, InstancesRunPublished, EventsSequenced;
    forall t <- db.tasks ensures db.tasks[t].binding in db.bindings && db.tasks[t].binding !in but {
      UsedBindingIsPublished(db, t);
    }
  }

  lemma BindingWriteFits(db: Db, but: set<Id>, id: Id, row: Binding)
    requires Inv(db) && id !in db.bindings - but
    requires but <= db.bindings.Keys && forall b <- but :: !IsPublished(db.versions, db.bindings[b].version)
    ensures Constraints(db.(bindings := With(db.bindings, but, id, row))) <==> BindingFits(db, but, row)
  {
    BindingsWith(db, but, id, row);
    TasksElsewhere(db, but);
    BindingReferences(db, With(db.bindings, but, id, row));
    hide BindingFits, With, InstancesRunPublished, TasksBoundInVersion, EventsSequenced;
    hide Unique, DefinitionConstraints, VersionConstraints, ReviewConstraints, NodeConstraints, EdgeConstraints,
         BindingConstraints, InstanceConstraints, AttemptConstraints, TaskConstraints, EventConstraints;
  }

  lemma InsertBindingEffect(db: Db, id: Id, row: Binding)
    requires Inv(db)
    ensures ContentFaithful(db, Statement.InsertBinding(id, row), AddBinding(db, id, row))
  {
    hide Inv, Constraints, BindingFits, IsPublished, BindingOf;
    if id !in db.bindings {
      assert With(db.bindings, {}, id, row) == db.bindings[id := row];
      BindingWriteFits(db, {}, id, row);
    }
  }

  /** A binding of a draft has no tasks, so only the draft status and its own columns decide. */
  lemma UpdateBindingEffect(db: Db, id: Id, newId: Id, row: Binding)
    requires Inv(db) && id in db.bindings
    ensures ContentFaithful(db, Statement.UpdateBinding(id, newId, row), ChangeBinding(db, id, newId, row))
  {
    hide Inv, Constraints, BindingFits, IsPublished;
    if KeyFree(db.bindings, id, newId) && !IsPublished(db.versions, db.bindings[id].version) {
      assert With(db.bindings, {id}, newId, row) == Moved(db.bindings, id, newId, row);
      BindingWriteFits(db, {id}, newId, row);
    }
  }

  lemma DeleteBindingEffect(db: Db, id: Id)
    requires Inv(db)
    ensures ContentFaithful(db, Statement.DeleteBinding(id), DropBinding(db, id))
  {
    BindingDropsIff(db, id);
    hide Inv, IsPublished, Less;
    if DropBinding(db, id).Done? { BindingDropped(db, id); }
    hide DropBinding;
  }

  lemma BindingDropsIff(db: Db, id: Id)
    requires Inv(db)
    ensures DropBinding(db, id).Done? <==> (id in db.bindings ==> !IsPublished(db.versions, db.bindings[id].version))
  {
    if id in db.bindings && !IsPublished(db.versions, db.bindings[id].version) { TasksElsewhere(db, {id}); }
    hide Inv, IsPublished;
  }

  lemma BindingDropped(db: Db, id: Id)
    requires DropBinding(db, id).Done?
    ensures DropBinding(db, id).db == db.(bindings := Less(db.bindings, id))
  {
    RemovedIsLess(db.bindings, id);
    hide Less;
  }

  // ---- Instances ----

  /** The rows that reference instances still do. Tasks need no mention beyond their attempts. */
  lemma InstanceReferences(db: Db, instances: map<Id, Instance>)
    requires Constraints(db)
    ensures AttemptConstraints(db.nodes, instances, db.attempts)
            <==> forall a <- db.attempts :: InstanceOf(instances, db.attempts[a].instance, db.attempts[a].version)
    ensures TaskConstraints(db.bindings, instances, db.attempts, db.tasks)
            <==> forall t <- db.tasks :: InstanceOf(instances, db.tasks[t].instance, db.tasks[t].version)
    ensures EventConstraints(instances, db.attempts, db.events) <==> forall e <- db.events :: e.instance in instances
  {
    hide Unique, DefinitionConstraints, VersionConstraints, ReviewConstraints, NodeConstraints, EdgeConstraints,
         BindingConstraints, InstanceConstraints, NodeOf, InstanceOf, EventsDistinct;
  }

  lemma TasksFollowAttempts(db: Db)
    requires Constraints(db)
    ensures forall t <- db.tasks ::
              && db.tasks[t].attempt in db.attempts
              && db.attempts[db.tasks[t].attempt].instance == db.tasks[t].instance
              && db.attempts[db.tasks[t].attempt].version == db.tasks[t].version
  {
    hide Unique, DefinitionConstraints, VersionConstraints, ReviewConstraints, NodeConstraints, EdgeConstraints,
         BindingConstraints, InstanceConstraints, AttemptConstraints, EventConstraints;
    forall t <- db.tasks ensures TaskRowOk(db.bindings, db.instances, db.attempts, db.tasks[t]) {}
  }

  lemma InstancesStayReferenced(db: Db, but: set<Id>, id: Id, row: Instance)
    requires Constraints(db) && but <= db.instances.Keys && id !in db.instances - but && InstanceMayMove(db, but, id, row)
    ensures var more := With(db.instances, but, id, row);
            && AttemptConstraints(db.nodes, more, db.attempts)
            && TaskConstraints(db.bindings, more, db.attempts, db.tasks)
            && EventConstraints(more, db.attempts, db.events)
  {
    var more := With(db.instances, but, id, row);
    InstanceReferences(db, db.instances);
    InstanceReferences(db, more);
    TasksFollowAttempts(db);
    hide Constraints, AttemptConstraints, TaskConstraints, EventConstraints, InstanceMayMove, With, InstanceOf;
    forall a <- db.attempts ensures InstanceOf(more, db.attempts[a].instance, db.attempts[a].version) {
      AttemptStays(db, but, id, row, a);
    }
    forall t <- db.tasks ensures InstanceOf(more, db.tasks[t].instance, db.tasks[t].version) {
      AttemptStays(db, but, id, row, db.tasks[t].attempt);
    }
    forall e <- db.events ensures e.instance in more {
      LogStays(db, but, id, row, e);
    }
  }

  lemma AttemptStays(db: Db, but: set<Id>, id: Id, row: Instance, a: Id)
    requires but <= db.instances.Keys && id !in db.instances - but && InstanceMayMove(db, but, id, row)
    requires a in db.attempts && InstanceOf(db.instances, db.attempts[a].instance, db.attempts[a].version)
    ensures InstanceOf(With(db.instances, but, id, row), db.attempts[a].instance, db.attempts[a].version)
  {
    hide HasLog;
    assert HasAttempts(db, db.attempts[a].instance);
  }

  lemma LogStays(db: Db, but: set<Id>, id: Id, row: Instance, e: Event)
    requires but <= db.instances.Keys && id !in db.instances - but && InstanceMayMove(db, but, id, row)
    requires e in db.events && e.instance in db.instances
    ensures e.instance in With(db.instances, but, id, row)
  {
    hide HasAttempts;
    assert HasLog(db, e.instance);
  }

  lemma MovedInstanceLosesRows(db: Db, id: Id, newId: Id, row: Instance)
    requires Constraints(db) && id in db.instances && KeyFree(db.instances, id, newId)
    requires !InstanceMayMove(db, {id}, newId, row)
    ensures var more := With(db.instances, {id}, newId, row);
            !AttemptConstraints(db.nodes, more, db.attempts) || !EventConstraints(more, db.attempts, db.events)
  {
    var more := With(db.instances, {id}, newId, row);
    InstanceReferences(db, db.instances);
    InstanceReferences(db, more);
    hide Unique, DefinitionConstraints, VersionConstraints, ReviewConstraints, NodeConstraints, EdgeConstraints,
         BindingConstraints, InstanceConstraints, AttemptConstraints, TaskConstraints, EventConstraints;
    if HasAttempts(db, id) {
      var a :| a in db.attempts && db.attempts[a].instance == id;
      assert InstanceOf(db.instances, id, db.attempts[a].version);
      assert !InstanceOf(more, db.attempts[a].instance, db.attempts[a].version);
    } else {
      var e :| e in db.events && e.instance == id;
      assert id !in more;
    }
  }

  lemma InstanceMoveRefused(db: Db, but: set<Id>, id: Id, row: Instance)
    requires Constraints(db) && id !in db.instances - but && but <= db.instances.Keys && AtMostOne(but)
    requires !InstanceMayMove(db, but, id, row)
    ensures !AttemptConstraints(db.nodes, With(db.instances, but, id, row), db.attempts)
            || !EventConstraints(With(db.instances, but, id, row), db.attempts, db.events)
  {
    hide Constraints;
    var replaced :| replaced in but;
    assert but == {replaced};
    MovedInstanceLosesRows(db, replaced, id, row);
  }

  lemma InstanceWriteFits(db: Db, but: set<Id>, id: Id, row: Instance)
    requires Inv(db) && id !in db.instances - but && but <= db.instances.Keys && AtMostOne(but)
    ensures Constraints(db.(instances := With(db.instances, but, id, row)))
            <==> InstanceFits(db, but, row) && InstanceMayMove(db, but, id, row)
  {
    InstancesWith(db, but, id, row);
    if InstanceMayMove(db, but, id, row) {
      InstancesStayReferenced(db, but, id, row);
    } else {
      InstanceMoveRefused(db, but, id, row);
    }
    assert Constraints(db);
    hide Inv, InstanceFits, With, InstanceMayMove;
    hide Unique, DefinitionConstraints, VersionConstraints, ReviewConstraints, NodeConstraints, EdgeConstraints,
         BindingConstraints, InstanceConstraints, AttemptConstraints, TaskConstraints, EventConstraints;
  }

  lemma InsertInstanceEffect(db: Db, id: Id, row: Instance)
    requires Inv(db)
    ensures RunFaithful(db, Statement.InsertInstance(id, row), AddInstance(db, id, row))
  {
    hide Inv, Constraints, InstanceFits, IsPublished;
    if id !in db.instances {
      assert With(db.instances, {}, id, row) == db.instances[id := row];
      InstanceWriteFits(db, {}, id, row);
    }
  }

  lemma MovedReplaces<T(!new)>(m: map<Id, T>, id: Id, newId: Id, row: T)
    requires id in m && KeyFree(m, id, newId)
    ensures Replaced(m, Moved(m, id, newId, row), id, newId, row) && With(m, {id}, newId, row) == Moved(m, id, newId, row)
  {
  }

  lemma InstanceMoves(db: Db, id: Id, newId: Id, row: Instance)
    requires Inv(db) && id in db.instances && KeyFree(db.instances, id, newId)
    ensures Constraints(db.(instances := Moved(db.instances, id, newId, row)))
            <==> InstanceFits(db, {id}, row) && InstanceMayMove(db, {id}, newId, row)
    ensures Replaced(db.instances, Moved(db.instances, id, newId, row), id, newId, row)
  {
    hide Inv, Constraints, InstanceFits, InstanceMayMove, Replaced;
    MovedReplaces(db.instances, id, newId, row);
    InstanceWriteFits(db, {id}, newId, row);
  }

  /** Without the version column in its SET list an update keeps the version; with it the new version must be published. */
  lemma UpdateInstanceEffect(db: Db, id: Id, newId: Id, row: Instance, setsVersion: bool)
    requires Inv(db) && id in db.instances
    ensures RunFaithful(db, Statement.UpdateInstance(id, newId, row, setsVersion), ChangeInstance(db, id, newId, row, setsVersion))
  {
    hide Inv, Constraints, InstanceFits, IsPublished, InstanceMayMove, Replaced, Moved;
    if KeyFree(db.instances, id, newId) {
      InstanceMoves(db, id, newId, if setsVersion then row else row.(version := db.instances[id].version));
    }
    hide KeyFree;
  }

  /** An instance can be deleted exactly when it has no events; its attempts and tasks, and only those, go with it. */
  lemma DeleteInstanceEffect(db: Db, id: Id)
    requires Inv(db) && id in db.instances
    ensures RunFaithful(db, Statement.DeleteInstance(id), DropInstance(db, id))
  {
    InstanceDropsIff(db, id);
    TasksFollowAttempts(db);
    hide Inv, HasLog, Less, AttemptsOfOthers, TasksOfOthers;
    if DropInstance(db, id).Done? { InstanceDropped(db, id); }
    hide DropInstance;
  }

  lemma InstanceDropsIff(db: Db, id: Id)
    requires Inv(db) && id in db.instances
    ensures DropInstance(db, id).Done? <==> !HasLog(db, id)
  {
    EventsFollowAttempts(db);
    hide Inv;
    LogIffHeld(db, id);
    hide HasLog, AttemptsOf;
  }

  lemma InstanceDropped(db: Db, id: Id)
    requires id in db.instances && DropInstance(db, id).Done?
    requires forall t <- db.tasks ::
               db.tasks[t].attempt in db.attempts && db.attempts[db.tasks[t].attempt].instance == db.tasks[t].instance
    ensures DropInstance(db, id).db
            == db.(instances := Less(db.instances, id), attempts := AttemptsOfOthers(db, id), tasks := TasksOfOthers(db, id))
  {
    var next := DropInstance(db, id).db;
    RemovedIsLess(db.instances, id);
    assert db.attempts - AttemptsOf(db, id) == AttemptsOfOthers(db, id);
    assert next.tasks == TasksOfOthers(db, id);
    hide Less, AttemptsOfOthers, TasksOfOthers, AttemptsOf;
  }

  lemma LogIffHeld(db: Db, id: Id)
    requires forall e <- db.events ::
               e.attempt.Some? ==> e.attempt.value in db.attempts && db.attempts[e.attempt.value].instance == e.instance
    ensures HasLog(db, id)
            <==> exists e <- db.events :: e.instance == id || (e.attempt.Some? && e.attempt.value in AttemptsOf(db, id))
  {
  }

  lemma EventsFollowAttempts(db: Db)
    requires Constraints(db)
    ensures forall e <- db.events ::
              e.attempt.Some? ==> e.attempt.value in db.attempts && db.attempts[e.attempt.value].instance == e.instance
  {
    hide Unique, DefinitionConstraints, VersionConstraints, ReviewConstraints, NodeConstraints, EdgeConstraints,
         BindingConstraints, InstanceConstraints, AttemptConstraints, TaskConstraints, EventsDistinct;
    forall e <- db.events ensures EventRowOk(db.instances, db.attempts, e) {}
  }

  // ---- Node attempts ----

  lemma AttemptNumberIsNext(db: Db, row: Attempt)
    requires Inv(db)
    ensures NextAttempt(db, row, MaxOrZero(AttemptNumbers(db, row.instance, row.node)) + 1)
  {
    hide Unique, DefinitionConstraints, VersionConstraints, ReviewConstraints, NodeConstraints, EdgeConstraints,
         BindingConstraints, InstanceConstraints, TaskConstraints, EventConstraints;
    var numbers := AttemptNumbers(db, row.instance, row.node);
    forall a <- db.attempts | db.attempts[a].instance == row.instance && db.attempts[a].node == row.node
      ensures db.attempts[a].attempt in numbers {}
    if numbers != {} {
      var a :| a in db.attempts && db.attempts[a].instance == row.instance && db.attempts[a].node == row.node
               && db.attempts[a].attempt == MaxOrZero(numbers);
      assert AttemptRowOk(db.nodes, db.instances, db.attempts[a]);
    }
  }

  predicate TaskAttemptOk(attempts: map<Id, Attempt>, t: Task) {
    t.attempt in attempts && attempts[t.attempt].instance == t.instance && attempts[t.attempt].version == t.version
  }

  lemma AttemptReferences(db: Db, attempts: map<Id, Attempt>)
    requires Constraints(db)
    ensures TaskConstraints(db.bindings, db.instances, attempts, db.tasks)
            <==> forall t <- db.tasks :: TaskAttemptOk(attempts, db.tasks[t])
    ensures EventConstraints(db.instances, attempts, db.events) <==> forall e <- db.events :: EventAttemptOk(attempts, e)
  {
    hide Unique, DefinitionConstraints, VersionConstraints, ReviewConstraints, NodeConstraints, EdgeConstraints,
         BindingConstraints, InstanceConstraints, AttemptConstraints, InstanceOf, EventsDistinct;
  }

  lemma AttemptsStayReferenced(db: Db, but: set<Id>, id: Id, row: Attempt)
    requires Constraints(db) && but <= db.attempts.Keys && id !in db.attempts - but && AttemptMayMove(db, but, id, row)
    ensures var more := With(db.attempts, but, id, row);
            && TaskConstraints(db.bindings, db.instances, more, db.tasks)
            && EventConstraints(db.instances, more, db.events)
  {
    var more := With(db.attempts, but, id, row);
    AttemptReferences(db, db.attempts);
    AttemptReferences(db, more);
    hide Constraints, AttemptMayMove, With, TaskAttemptOk, EventAttemptOk, TaskConstraints, EventConstraints;
    forall t <- db.tasks ensures TaskAttemptOk(more, db.tasks[t]) {
      TaskStays(db, but, id, row, t);
    }
    forall e <- db.events ensures EventAttemptOk(more, e) {
      EventStays(db, but, id, row, e);
    }
  }

  lemma TaskStays(db: Db, but: set<Id>, id: Id, row: Attempt, t: Id)
    requires but <= db.attempts.Keys && id !in db.attempts - but && AttemptMayMove(db, but, id, row)
    requires t in db.tasks && TaskAttemptOk(db.attempts, db.tasks[t])
    ensures TaskAttemptOk(With(db.attempts, but, id, row), db.tasks[t])
  {
    hide IsLogged;
    assert HasTask(db, db.tasks[t].attempt);
  }

  lemma EventStays(db: Db, but: set<Id>, id: Id, row: Attempt, e: Event)
    requires but <= db.attempts.Keys && id !in db.attempts - but && AttemptMayMove(db, but, id, row)
    requires e in db.events && EventAttemptOk(db.attempts, e)
    ensures EventAttemptOk(With(db.attempts, but, id, row), e)
  {
    hide HasTask;
    if e.attempt.Some? { assert IsLogged(db, e.attempt.value); }
  }

  lemma MovedAttemptLosesRows(db: Db, id: Id, newId: Id, row: Attempt)
    requires Constraints(db) && id in db.attempts && KeyFree(db.attempts, id, newId)
    requires !AttemptMayMove(db, {id}, newId, row)
    ensures var more := With(db.attempts, {id}, newId, row);
            !TaskConstraints(db.bindings, db.instances, more, db.tasks) || !EventConstraints(db.instances, more, db.events)
  {
    var more := With(db.attempts, {id}, newId, row);
    AttemptReferences(db, db.attempts);
    AttemptReferences(db, more);
    hide Constraints, TaskConstraints, EventConstraints;
    if HasTask(db, id) {
      MovedAttemptLosesTask(db, id, newId, row);
    } else {
      MovedAttemptLosesEvent(db, id, newId, row);
    }
    hide TaskAttemptOk, EventAttemptOk, With;
  }

  lemma MovedAttemptLosesTask(db: Db, id: Id, newId: Id, row: Attempt)
    requires id in db.attempts && KeyFree(db.attempts, id, newId) && !AttemptMayMove(db, {id}, newId, row) && HasTask(db, id)
    requires forall t <- db.tasks :: TaskAttemptOk(db.attempts, db.tasks[t])
    ensures exists t <- db.tasks :: !TaskAttemptOk(With(db.attempts, {id}, newId, row), db.tasks[t])
  {
    var t :| t in db.tasks && db.tasks[t].attempt == id;
    assert !TaskAttemptOk(With(db.attempts, {id}, newId, row), db.tasks[t]);
  }

  lemma MovedAttemptLosesEvent(db: Db, id: Id, newId: Id, row: Attempt)
    requires id in db.attempts && KeyFree(db.attempts, id, newId) && !AttemptMayMove(db, {id}, newId, row) && !HasTask(db, id)
    requires forall e <- db.events :: EventAttemptOk(db.attempts, e)
    ensures exists e <- db.events :: !EventAttemptOk(With(db.attempts, {id}, newId, row), e)
  {
    hide HasTask;
    var e :| e in db.events && e.attempt == Some(id);
    assert !EventAttemptOk(With(db.attempts, {id}, newId, row), e);
  }

  lemma AttemptMoveRefused(db: Db, but: set<Id>, id: Id, row: Attempt)
    requires Constraints(db) && id !in db.attempts - but && but <= db.attempts.Keys && AtMostOne(but)
    requires !AttemptMayMove(db, but, id, row)
    ensures !TaskConstraints(db.bindings, db.instances, With(db.attempts, but, id, row), db.tasks)
            || !EventConstraints(db.instances, With(db.attempts, but, id, row), db.events)
  {
    hide Constraints;
    var replaced :| replaced in but;
    assert but == {replaced};
    MovedAttemptLosesRows(db, replaced, id, row);
  }

  lemma AttemptWriteFits(db: Db, but: set<Id>, id: Id, row: Attempt)
    requires Inv(db) && id !in db.attempts - but && but <= db.attempts.Keys && AtMostOne(but)
    ensures Constraints(db.(attempts := With(db.attempts, but, id, row)))
            <==> AttemptFits(db, but, row) && AttemptMayMove(db, but, id, row)
  {
    AttemptsWith(db, but, id, row);
    if AttemptMayMove(db, but, id, row) {
      AttemptsStayReferenced(db, but, id, row);
    } else {
      AttemptMoveRefused(db, but, id, row);
    }
    assert Constraints(db);
    hide Inv, AttemptFits, With, AttemptMayMove;
    hide Unique, DefinitionConstraints, VersionConstraints, ReviewConstraints, NodeConstraints, EdgeConstraints,
         BindingConstraints, InstanceConstraints, AttemptConstraints, TaskConstraints, EventConstraints;
  }

  lemma InsertAttemptCommitsIff(db: Db, id: Id, row: Attempt)
    requires Inv(db)
    ensures AddAttempt(db, id, row).Done?
            <==> id !in db.attempts && AttemptStarts(db, row, MaxOrZero(AttemptNumbers(db, row.instance, row.node)) + 1)
  {
    hide Inv, Constraints, AttemptNumbers, MaxOrZero, AttemptFits, AttemptStarts;
    AttemptNumberNeverRefuses(db, row);
    if id !in db.attempts {
      AddedAttemptFitsIff(db, id, row.(attempt := MaxOrZero(AttemptNumbers(db, row.instance, row.node)) + 1));
    }
  }

  lemma AddedAttemptFitsIff(db: Db, id: Id, row: Attempt)
    requires Inv(db) && id !in db.attempts
    ensures Constraints(db.(attempts := db.attempts[id := row])) <==> AttemptFits(db, {}, row)
  {
    hide Inv, Constraints, AttemptFits;
    assert With(db.attempts, {}, id, row) == db.attempts[id := row];
    AttemptWriteFits(db, {}, id, row);
  }

  lemma AttemptNumberNeverRefuses(db: Db, row: Attempt)
    requires Inv(db)
    ensures var n := MaxOrZero(AttemptNumbers(db, row.instance, row.node)) + 1;
            AttemptFits(db, {}, row.(attempt := n)) <==> AttemptStarts(db, row, n)
  {
    AttemptNumberIsNext(db, row);
    hide Inv, Constraints, AttemptNumbers, MaxOrZero, InstanceOf, NodeOf;
  }

  lemma InsertAttemptEffect(db: Db, id: Id, row: Attempt)
    requires Inv(db) && AddAttempt(db, id, row).Done?
    ensures var next := AddAttempt(db, id, row).db;
            && id !in db.attempts && id in next.attempts
            && Put(db.attempts, next.attempts, id, row.(attempt := next.attempts[id].attempt))
            && next == db.(attempts := next.attempts)
            && NextAttempt(db, row, next.attempts[id].attempt) && next.attempts[id].attempt <= row.maxAttempts
  {
    hide AttemptNumbers, MaxOrZero, Constraints, Inv, InstanceOf, NodeOf, NextAttempt;
    AttemptNumberIsNext(db, row);
    InsertAttemptCommitsIff(db, id, row);
    assert AttemptStarts(db, row, MaxOrZero(AttemptNumbers(db, row.instance, row.node)) + 1);
    hide AttemptStarts;
  }

  lemma UpdateAttemptEffect(db: Db, id: Id, newId: Id, row: Attempt)
    requires Inv(db) && id in db.attempts
    ensures RunFaithful(db, Statement.UpdateAttempt(id, newId, row), ChangeAttempt(db, id, newId, row))
  {
    hide Inv, Constraints, AttemptFits, AttemptMayMove;
    if KeyFree(db.attempts, id, newId) {
      assert With(db.attempts, {id}, newId, row) == Moved(db.attempts, id, newId, row);
      AttemptWriteFits(db, {id}, newId, row);
    }
  }

  lemma DeleteAttemptEffect(db: Db, id: Id)
    requires id in db.attempts
    ensures RunFaithful(db, Statement.DeleteAttempt(id), DropAttempt(db, id))
  {
    RemovedIsLess(db.attempts, id);
    assert db.tasks - TasksOfAttempts(db, {id}) == TasksOff(db, id);
    hide Less, TasksOff, TasksOfAttempts;
  }

  // ---- Tasks ----

  lemma TaskWriteFits(db: Db, but: set<Id>, id: Id, row: Task)
    requires Inv(db) && id !in db.tasks - but
    ensures Constraints(db.(tasks := With(db.tasks, but, id, row))) <==> TaskFits(db, but, row)
  {
    TasksWith(db, but, id, row);
    hide TaskFits, With, InstancesRunPublished, TasksBoundInVersion, EventsSequenced;
    hide Unique, DefinitionConstraints, VersionConstraints, ReviewConstraints, NodeConstraints, EdgeConstraints,
         BindingConstraints, InstanceConstraints, AttemptConstraints, TaskConstraints, EventConstraints;
  }

  lemma InsertTaskEffect(db: Db, id: Id, row: Task)
    requires Inv(db)
    ensures WorkFaithful(db, Statement.InsertTask(id, row), AddTask(db, id, row))
  {
    hide Inv, Constraints, TaskFits;
    if id !in db.tasks {
      assert With(db.tasks, {}, id, row) == db.tasks[id := row];
      TaskWriteFits(db, {}, id, row);
    }
  }

  /** Without the binding or version column in its SET list an update keeps both; with one of them both are checked. */
  lemma UpdateTaskEffect(db: Db, id: Id, newId: Id, row: Task, setsBinding: bool)
    requires Inv(db) && id in db.tasks
    ensures WorkFaithful(db, Statement.UpdateTask(id, newId, row, setsBinding), ChangeTask(db, id, newId, row, setsBinding))
  {
    hide Inv, Constraints, TaskFits, Replaced, Moved, With;
    if KeyFree(db.tasks, id, newId) {
      var written := if setsBinding then row else row.(binding := db.tasks[id].binding, version := db.tasks[id].version);
      MovedReplaces(db.tasks, id, newId, written);
      TaskWriteFits(db, {id}, newId, written);
    }
  }

  lemma DeleteTaskEffect(db: Db, id: Id)
    ensures WorkFaithful(db, Statement.DeleteTask(id), DropTask(db, id))
  {
    RemovedIsLess(db.tasks, id);
    hide Less;
  }

  // ---- Events ----

  lemma EventNumberIsNew(db: Db, row: Event)
    requires Constraints(db)
    ensures EventConstraints(db.instances, db.attempts,
              db.events + [row.(sequence := MaxOrZero(SequenceNumbers(db.events, row.instance)) + 1)])
            <==> EventFits(db, row)
  {
    hide Unique, DefinitionConstraints, VersionConstraints, ReviewConstraints, NodeConstraints, EdgeConstraints,
         BindingConstraints, InstanceConstraints, AttemptConstraints, TaskConstraints;
    var numbers := SequenceNumbers(db.events, row.instance);
    var last := row.(sequence := MaxOrZero(numbers) + 1);
    var more := db.events + [last];
    var n := |db.events|;
    forall k | 0 <= k < n && db.events[k].instance == row.instance ensures db.events[k].sequence < last.sequence {
      assert db.events[k].sequence in numbers;
    }
    hide MaxOrZero, SequenceNumbers;
    assert more[n] == last && forall k | 0 <= k < n :: more[k] == db.events[k];
    assert EventsDistinct(more) <==> forall k | 0 <= k < n ::
        db.events[k].id != row.id && !(db.events[k].instance == row.instance && db.events[k].idempotencyKey == row.idempotencyKey);
    assert (forall e <- more :: EventRowOk(db.instances, db.attempts, e)) <==> EventRowOk(db.instances, db.attempts, last);
  }

  lemma InsertEventEffect(db: Db, row: Event)
    requires Inv(db)
    ensures WorkFaithful(db, Statement.InsertEvent(row), AddEvent(db, row))
  {
    EventCommitsIff(db, row);
    if AddEvent(db, row).Done? { EventAppended(db, row); }
    hide EventFits, LogOf, Inv, AddEvent;
  }

  lemma EventAppended(db: Db, row: Event)
    requires Inv(db) && AddEvent(db, row).Done?
    ensures AddEvent(db, row).db == db.(events := db.events + [row.(sequence := |LogOf(db.events, row.instance)| + 1)])
  {
    assert EventsSequenced(db.events);
    assert Sequenced(LogOf(db.events, row.instance));
    hide Inv, EventsSequenced, Sequenced, Constraints;
    NextSequence(db.events, row.instance);
    hide SequenceNumbers, MaxOrZero, LogOf;
  }

  lemma EventCommitsIff(db: Db, row: Event)
    requires Inv(db)
    ensures AddEvent(db, row).Done? <==> EventFits(db, row)
  {
    EventNumberIsNew(db, row);
    hide EventFits, SequenceNumbers, MaxOrZero, EventsSequenced, InstancesRunPublished, TasksBoundInVersion;
    hide DefinitionConstraints, VersionConstraints, ReviewConstraints, NodeConstraints, EdgeConstraints, BindingConstraints,
         InstanceConstraints, AttemptConstraints, TaskConstraints, EventConstraints;
  }

  // ---- Every statement ----

  lemma VersionStatementEffect(db: Db, s: Statement)
    requires Inv(db) && OnVersionTables(s)
    ensures VersionFaithful(db, s, VersionStep(db, s))
  {
    hide Inv, Constraints, Less, AddDefinition, AddVersion, AddReview, DefinitionFits, VersionFits, Insertable, Put, Replaced,
         LeftWithout, Deletable, NextVersion, DraftMayMove, VersionDeleteRefused, WithoutVersions;
    match s
    case InsertDefinition(id, row) => InsertDefinitionEffect(db, id, row);
    case UpdateDefinition(id, newId, row) => if id in db.definitions { UpdateDefinitionEffect(db, id, newId, row); }
    case DeleteDefinition(id) => if id in db.definitions { DeleteDefinitionEffect(db, id); }
    case InsertVersion(id, row) =>
      InsertVersionCommitsIff(db, id, row);
      if AddVersion(db, id, row).Done? { InsertVersionEffect(db, id, row); }
    case UpdateVersion(id, newId, row) =>
      if id in db.versions && db.versions[id].publication.Draft? {
        UpdateDraftEffect(db, id, newId, row);
      } else if id in db.versions {
        PublishedVersionIsFixed(db, id, newId, row);
      }
    case DeleteVersion(id) => if id in db.versions { DeleteVersionEffect(db, id); }
    case InsertReview(id, row) => InsertReviewEffect(db, id, row);
    case UpdateReview(_, _, _) =>
    case DeleteReview(_) =>
  }

  lemma ContentStatementEffect(db: Db, s: Statement)
    requires Inv(db) && OnContentTables(s)
    ensures ContentFaithful(db, s, ContentStep(db, s))
  {
    hide Inv, Constraints, Less, AddNode, AddEdge, AddBinding, NodeFits, EdgeFits, BindingFits, Put, Replaced, HasEdges, ContentFrozen,
         EdgesAt, IsPublished;
    match s
    case InsertNode(id, row) => InsertNodeEffect(db, id, row);
    case UpdateNode(id, newId, row) => if id in db.nodes { UpdateNodeEffect(db, id, newId, row); }
    case DeleteNode(id) => if id in db.nodes { DeleteNodeEffect(db, id); }
    case InsertEdge(id, row) => InsertEdgeEffect(db, id, row);
    case UpdateEdge(id, newId, row) => if id in db.edges { UpdateEdgeEffect(db, id, newId, row); }
    case DeleteEdge(id) => DeleteEdgeEffect(db, id);
    case InsertBinding(id, row) => InsertBindingEffect(db, id, row);
    case UpdateBinding(id, newId, row) => if id in db.bindings { UpdateBindingEffect(db, id, newId, row); }
    case DeleteBinding(id) => DeleteBindingEffect(db, id);
  }

  lemma RunStatementEffect(db: Db, s: Statement)
    requires Inv(db) && OnRunTables(s)
    ensures RunFaithful(db, s, RunStep(db, s))
  {
    hide Inv, Constraints, Less, AddInstance, AddAttempt, InstanceFits, AttemptFits, AttemptStarts, Put, Replaced, HasLog, IsLogged,
         InstanceMayMove, AttemptMayMove, NextAttempt, IsPublished;
    match s
    case InsertInstance(id, row) => InsertInstanceEffect(db, id, row);
    case UpdateInstance(id, newId, row, setsVersion) =>
      if id in db.instances { UpdateInstanceEffect(db, id, newId, row, setsVersion); }
    case DeleteInstance(id) => if id in db.instances { DeleteInstanceEffect(db, id); }
    case InsertAttempt(id, row) =>
      InsertAttemptCommitsIff(db, id, row);
      AttemptNumberIsNext(db, row);
      OneNextAttempt(db, row);
      if AddAttempt(db, id, row).Done? { InsertAttemptEffect(db, id, row); }
    case UpdateAttempt(id, newId, row) => if id in db.attempts { UpdateAttemptEffect(db, id, newId, row); }
    case DeleteAttempt(id) => if id in db.attempts { DeleteAttemptEffect(db, id); }
  }

  lemma OneNextAttempt(db: Db, row: Attempt)
    ensures forall m, n :: NextAttempt(db, row, m) && NextAttempt(db, row, n) ==> m == n
  {
  }

  lemma WorkStatementEffect(db: Db, s: Statement)
    requires Inv(db) && OnWorkTables(s)
    ensures WorkFaithful(db, s, WorkStep(db, s))
  {
    hide Inv, Constraints, Less, AddTask, AddEvent, TaskFits, EventFits, Put, Replaced, BindingOf;
    match s
    case InsertTask(id, row) => InsertTaskEffect(db, id, row);
    case UpdateTask(id, newId, row, setsBinding) => if id in db.tasks { UpdateTaskEffect(db, id, newId, row, setsBinding); }
    case DeleteTask(id) => DeleteTaskEffect(db, id);
    case InsertEvent(row) => InsertEventEffect(db, row);
    case UpdateEvent(_, _) =>
    case DeleteEvent(_) =>
  }

  /** In a database that meets the rules every statement commits exactly when it may, and then leaves exactly what it says. */
  lemma StatementEffect(db: Db, s: Statement)
    requires Inv(db)
    ensures Step(db, s).Done? <==> Commits(db, s)
    ensures if Commits(db, s) then Leaves(db, s, After(db, s)) else After(db, s) == db
  {
    hide Inv, VersionStep, ContentStep, RunStep, WorkStep;
    hide VersionCommits, ContentCommits, RunCommits, WorkCommits, VersionLeaves, ContentLeaves, RunLeaves, WorkLeaves;
    if OnVersionTables(s) {
      VersionStatementEffect(db, s);
    } else if OnContentTables(s) {
      ContentStatementEffect(db, s);
    } else if OnRunTables(s) {
      RunStatementEffect(db, s);
    } else {
      WorkStatementEffect(db, s);
    }
  }
}
