/** The workflow tables that lib/db.ts installs and the constraints it declares on them. */
module WorkflowSchema {
  import opened Wrappers

  type Id = nat

  datatype Publication = Draft | Published(contentHash: string, publishedAt: nat, publishedBy: string)

  datatype Definition = Definition(tenant: string, businessUnit: string, slug: string, details: string)
  datatype Version = Version(definition: Id, number: int, schemaVersion: int, publication: Publication, revision: int)
  datatype Decision = Submitted | Approved | Rejected
  datatype Review = Review(version: Id, revision: int, decision: Decision, reviewer: string)
  datatype Node = Node(version: Id, key: string, contractVersion: int, content: string)
  datatype Edge = Edge(version: Id, key: string, source: Id, target: Id, content: string)
  datatype Binding = Binding(version: Id, role: string, group: string, permissions: seq<string>)
  datatype Instance = Instance(version: Id, tenant: string, idempotencyKey: string, progress: string)
  datatype Attempt = Attempt(instance: Id, version: Id, node: Id, attempt: int, maxAttempts: int, idempotencyKey: string, progress: string)
  datatype Task = Task(instance: Id, version: Id, attempt: Id, binding: Id, idempotencyKey: string, progress: string)
  datatype Event = Event(id: Id, instance: Id, attempt: Option<Id>, sequence: int, kind: string, idempotencyKey: string, payload: string)

  /** All tables. Events keep the order in which they were inserted; every other table is keyed by its id. */
  datatype Db = Db(
    definitions: map<Id, Definition>,
    versions: map<Id, Version>,
    reviews: map<Id, Review>,
    nodes: map<Id, Node>,
    edges: map<Id, Edge>,
    bindings: map<Id, Binding>,
    instances: map<Id, Instance>,
    attempts: map<Id, Attempt>,
    tasks: map<Id, Task>,
    events: seq<Event>)

  const EMPTY: Db := Db(map[], map[], map[], map[], map[], map[], map[], map[], map[], [])

  predicate IsPublished(versions: map<Id, Version>, v: Id) {
    v in versions && versions[v].publication.Published?
  }

  // ---- Declared constraints ----

  /** A UNIQUE constraint: no two rows share the key. */
  predicate Unique<T, K(==)>(m: map<Id, T>, key: T -> K) {
    forall a <- m, b <- m | a != b :: key(m[a]) != key(m[b])
  }

  function ScopeSlug(d: Definition): (string, string, string) { (d.tenant, d.businessUnit, d.slug) }
  function VersionKey(v: Version): (Id, int) { (v.definition, v.number) }
  function NodeKey(n: Node): (Id, string) { (n.version, n.key) }
  function EdgeKey(e: Edge): (Id, string) { (e.version, e.key) }
  function RoleKey(b: Binding): (Id, string, string) { (b.version, b.role, b.group) }
  function StartKey(i: Instance): (string, string) { (i.tenant, i.idempotencyKey) }
  function AttemptKey(a: Attempt): (Id, Id, int) { (a.instance, a.node, a.attempt) }
  function AttemptIdempotency(a: Attempt): (Id, string) { (a.instance, a.idempotencyKey) }
  function TaskAttempt(t: Task): Id { t.attempt }
  function TaskIdempotency(t: Task): (Id, string) { (t.instance, t.idempotencyKey) }

  predicate DefinitionConstraints(definitions: map<Id, Definition>) {
    && (forall d <- definitions :: definitions[d].tenant != "" && definitions[d].businessUnit != "")
    && Unique(definitions, ScopeSlug)
  }

  predicate IsContentHash(hash: string) {
    |hash| == 64 && forall c <- hash :: '0' <= c <= '9' || 'a' <= c <= 'f'
  }

  predicate SingleDraft(versions: map<Id, Version>) {
    forall a <- versions, b <- versions | a != b && versions[a].definition == versions[b].definition ::
      versions[a].publication.Published? || versions[b].publication.Published?
  }

  predicate VersionRowOk(definitions: map<Id, Definition>, row: Version) {
    && row.definition in definitions
    && row.number > 0 && row.schemaVersion > 0 && row.revision > 0
    && (row.publication.Published? ==> IsContentHash(row.publication.contentHash))
  }

  predicate VersionConstraints(definitions: map<Id, Definition>, versions: map<Id, Version>) {
    && (forall v <- versions :: VersionRowOk(definitions, versions[v]))
    && Unique(versions, VersionKey)
    && SingleDraft(versions)
  }

  predicate ReviewConstraints(versions: map<Id, Version>, reviews: map<Id, Review>) {
    forall r <- reviews :: reviews[r].version in versions && reviews[r].revision > 0 && reviews[r].reviewer != ""
  }

  predicate NodeConstraints(versions: map<Id, Version>, nodes: map<Id, Node>) {
    && (forall n <- nodes :: nodes[n].version in versions && nodes[n].key != "" && nodes[n].contractVersion > 0)
    && Unique(nodes, NodeKey)
  }

  /** The composite key (id, workflow_version_id) that edges and attempts refer to. */
  predicate NodeOf(nodes: map<Id, Node>, node: Id, version: Id) {
    node in nodes && nodes[node].version == version
  }

  predicate EdgeRowOk(versions: map<Id, Version>, nodes: map<Id, Node>, row: Edge) {
    && row.version in versions && row.key != "" && row.source != row.target
    && NodeOf(nodes, row.source, row.version) && NodeOf(nodes, row.target, row.version)
  }

  predicate EdgeConstraints(versions: map<Id, Version>, nodes: map<Id, Node>, edges: map<Id, Edge>) {
    && (forall e <- edges :: EdgeRowOk(versions, nodes, edges[e]))
    && Unique(edges, EdgeKey)
  }

  predicate BindingConstraints(versions: map<Id, Version>, bindings: map<Id, Binding>) {
    && (forall b <- bindings ::
          && bindings[b].version in versions
          && bindings[b].role != "" && bindings[b].group != "" && |bindings[b].permissions| > 0)
    && Unique(bindings, RoleKey)
  }

  predicate InstanceConstraints(versions: map<Id, Version>, instances: map<Id, Instance>) {
    && (forall i <- instances :: instances[i].version in versions && instances[i].tenant != "")
    && Unique(instances, StartKey)
  }

  predicate InstanceOf(instances: map<Id, Instance>, instance: Id, version: Id) {
    instance in instances && instances[instance].version == version
  }

  predicate AttemptRowOk(nodes: map<Id, Node>, instances: map<Id, Instance>, row: Attempt) {
    && InstanceOf(instances, row.instance, row.version) && NodeOf(nodes, row.node, row.version)
    && 0 < row.attempt <= row.maxAttempts
  }

  predicate AttemptConstraints(nodes: map<Id, Node>, instances: map<Id, Instance>, attempts: map<Id, Attempt>) {
    && (forall a <- attempts :: AttemptRowOk(nodes, instances, attempts[a]))
    && Unique(attempts, AttemptKey)
    && Unique(attempts, AttemptIdempotency)
  }

  predicate TaskRowOk(bindings: map<Id, Binding>, instances: map<Id, Instance>, attempts: map<Id, Attempt>, row: Task) {
    && row.binding in bindings && InstanceOf(instances, row.instance, row.version)
    && row.attempt in attempts
    && attempts[row.attempt].instance == row.instance && attempts[row.attempt].version == row.version
  }

  predicate TaskConstraints(bindings: map<Id, Binding>, instances: map<Id, Instance>,
                            attempts: map<Id, Attempt>, tasks: map<Id, Task>) {
    && (forall t <- tasks :: TaskRowOk(bindings, instances, attempts, tasks[t]))
    && Unique(tasks, TaskAttempt)
    && Unique(tasks, TaskIdempotency)
  }

  predicate EventRowOk(instances: map<Id, Instance>, attempts: map<Id, Attempt>, row: Event) {
    && row.instance in instances && row.kind != ""
    && (row.attempt.Some? ==>
          row.attempt.value in attempts && attempts[row.attempt.value].instance == row.instance)
  }

  predicate EventsDistinct(events: seq<Event>) {
    forall j, k | 0 <= j < k < |events| ::
      && events[j].id != events[k].id
      && (events[j].instance == events[k].instance ==>
            events[j].sequence != events[k].sequence && events[j].idempotencyKey != events[k].idempotencyKey)
  }

  predicate EventConstraints(instances: map<Id, Instance>, attempts: map<Id, Attempt>, events: seq<Event>) {
    && (forall e <- events :: EventRowOk(instances, attempts, e))
    && EventsDistinct(events)
  }

  predicate Constraints(db: Db) {
    && DefinitionConstraints(db.definitions)
    && VersionConstraints(db.definitions, db.versions)
    && ReviewConstraints(db.versions, db.reviews)
    && NodeConstraints(db.versions, db.nodes)
    && EdgeConstraints(db.versions, db.nodes, db.edges)
    && BindingConstraints(db.versions, db.bindings)
    && InstanceConstraints(db.versions, db.instances)
    && AttemptConstraints(db.nodes, db.instances, db.attempts)
    && TaskConstraints(db.bindings, db.instances, db.attempts, db.tasks)
    && EventConstraints(db.instances, db.attempts, db.events)
  }
}
