/** The revision of a draft as a count of its updates, which is what optimistic locking relies on. */
module WorkflowRevisions {
  import opened Wrappers
  import opened WorkflowSchema
  import opened WorkflowStatements
  import opened WorkflowInvariants
  import opened WorkflowTheorems

  /**
   An update of a draft that commits stores the row it was given under its new id with exactly
   the old revision plus one, and leaves every other version where it was.
   */
  lemma UpdateStoresNextRevision(db: Db, id: Id, newId: Id, row: Version)
    requires id in db.versions && db.versions[id].publication.Draft? && Step(db, UpdateVersion(id, newId, row)).Done?
    ensures var next := After(db, UpdateVersion(id, newId, row)).versions;
            && newId in next && next[newId] == row.(revision := db.versions[id].revision + 1)
            && (newId != id ==> id !in next)
            && forall v | v != id && v != newId ::
                 (v in next <==> v in db.versions) && (v in db.versions ==> next[v] == db.versions[v])
  {
    hide Constraints;
  }

  /** The statement updates version v and commits. */
  ghost predicate Updates(db: Db, s: Statement, v: Id) {
    s.UpdateVersion? && s.id == v && Step(db, s).Done?
  }

  ghost function UpdateCount(db: Db, ss: seq<Statement>, v: Id): nat
    decreases |ss|
  {
    if ss == [] then 0
    else (if Updates(db, ss[0], v) then 1 else 0) + UpdateCount(After(db, ss[0]), ss[1..], v)
  }

  /** The version is there throughout the run. */
  ghost predicate Stays(db: Db, ss: seq<Statement>, v: Id)
    decreases |ss|
  {
    v in db.versions && (ss != [] ==> Stays(After(db, ss[0]), ss[1..], v))
  }

  lemma VersionStatementRevision(db: Db, s: Statement, v: Id)
    requires s.InsertVersion? || s.UpdateVersion? || s.DeleteVersion?
    requires v in db.versions && v in After(db, s).versions
    ensures var was, now := db.versions[v], After(db, s).versions[v];
            if Updates(db, s, v) then now == s.version.(revision := was.revision + 1) else now == was
  {
    hide Constraints, VersionDeleteRefused;
  }

  lemma OtherDesignStatementsSpareVersion(db: Db, s: Statement, v: Id)
    requires OnVersionTables(s) && !s.InsertVersion? && !s.UpdateVersion? && !s.DeleteVersion?
    requires v in db.versions && v in After(db, s).versions
    ensures After(db, s).versions[v] == db.versions[v]
  {
    hide Constraints, VersionDeleteRefused;
  }

  /** An update that commits stores what it was given and the next revision; no other statement changes the row. */
  lemma StepRevision(db: Db, s: Statement, v: Id)
    requires v in db.versions && v in After(db, s).versions
    ensures var was, now := db.versions[v], After(db, s).versions[v];
            if Updates(db, s, v) then now == s.version.(revision := was.revision + 1) else now == was
  {
    StepKeepsOneSide(db, s);
    hide After, Step;
    if s.InsertVersion? || s.UpdateVersion? || s.DeleteVersion? {
      VersionStatementRevision(db, s, v);
    } else if OnVersionTables(s) {
      OtherDesignStatementsSpareVersion(db, s, v);
    } else if OnContentTables(s) {
      ContentStatementsSpareVersions(db, s);
    }
  }

  /** The revision never falls, and has grown by exactly the number of committed updates. */
  lemma {:induction false} RevisionCountsUpdates(db: Db, ss: seq<Statement>, v: Id)
    requires Stays(db, ss, v)
    ensures v in Run(db, ss).versions
    ensures Run(db, ss).versions[v].revision == db.versions[v].revision + UpdateCount(db, ss, v)
    ensures UpdateCount(db, ss, v) == 0 ==> Run(db, ss).versions[v] == db.versions[v]
    decreases |ss|
  {
    hide After, Updates;
    if ss != [] {
      StepRevision(db, ss[0], v);
      RevisionCountsUpdates(After(db, ss[0]), ss[1..], v);
    }
  }

  /**
   An editor that finds the revision it read finds the row it read. So of two updates made on
   one revision, whichever runs second finds another revision.
   */
  lemma SameRevisionIsSameRow(db: Db, ss: seq<Statement>, v: Id)
    requires Stays(db, ss, v)
    ensures v in Run(db, ss).versions
    ensures Run(db, ss).versions[v].revision == db.versions[v].revision <==> UpdateCount(db, ss, v) == 0
    ensures Run(db, ss).versions[v].revision == db.versions[v].revision ==> Run(db, ss).versions[v] == db.versions[v]
  {
    RevisionCountsUpdates(db, ss, v);
  }
}
