/** The SQLite and PostgreSQL trigger sets as cascades over the two weight tables.
    SQLite checks for a rival with an EXISTS test and seals in a nested UPDATE, which fires the
    BEFORE UPDATE triggers again.  PostgreSQL seals in a BEFORE trigger and relies on a partial
    unique index. */
module WeightTriggers {
  import opened Wrappers
  import opened WeightTables

  datatype Dialect = Sqlite | Postgres

  // ----- Authority table: the guards have the same text in both dialects -----

  function GuardedInsertAuthority(db: Db, key: Key, row: AuthorityRow): Outcome {
    if !(&& row.revisionId in db.revisions
         && db.revisions[row.revisionId].status.Approved?
         && db.revisions[row.revisionId].key == key) then Aborted  // trg_authority_insert_guard
    else if key in db.authority then Aborted                        // primary key
    else Committed(db.(authority := db.authority[key := row]))
  }

  function GuardedUpdateAuthority(db: Db, key: Key): Outcome {
    if key in db.authority then Aborted  // trg_authority_update_guard
    else Committed(db)                   // no row matched
  }

  function GuardedDeleteAuthority(db: Db, key: Key): Outcome {
    if key !in db.authority then Committed(db)
    else
      var id := db.authority[key].revisionId;
      if id in db.revisions && db.revisions[id].status.Approved? then Aborted  // trg_authority_delete_guard
      else Committed(db.(authority := db.authority - {key}))
  }

  // ----- Revision table -----

  predicate ImmutabilityAborts(before: Revision, after: Revision) {
    before.sealedAt.Some? && !FrozenColumnsEqual(before, after)
  }

  predicate TransitionAborts(before: Revision, after: Revision) {
    before.status != after.status && !LegalTransition(before.status, after.status)
  }

  function SqliteUpdate(db: Db, id: Id, after: Revision, now: Timestamp): Outcome
    requires id in db.revisions
    decreases if Approves(db.revisions[id], after) then 1 else 0
  {
    var before := db.revisions[id];
    if ImmutabilityAborts(before, after) || TransitionAborts(before, after) then Aborted
    else if Approves(before, after) && !ApprovedFree(db.revisions, id, after.key)
      then Aborted  // trg_authority_check_on_approve
    else if !RowChecks(after) || !CodeRevisionFree(db.revisions, id, after) then Aborted
    else
      var written := db.(revisions := db.revisions[id := after]);
      if Approves(before, after) then
        // trg_authority_claim_and_seal: the nested UPDATE, then the authority INSERT
        match SqliteUpdate(written, id, after.(sealedAt := Some(now)), now)
        case Aborted => Aborted
        case Committed(sealed) => GuardedInsertAuthority(sealed, after.key, AuthorityRow(id, now))
      else if Releases(before, after) then
        GuardedDeleteAuthority(written, before.key)  // trg_authority_release_on_supersede
      else Committed(written)
  }

  function PostgresUpdate(db: Db, id: Id, after: Revision, now: Timestamp): Outcome
    requires id in db.revisions
  {
    // BEFORE triggers run in name order: immutability, seal, transition
    var before := db.revisions[id];
    if ImmutabilityAborts(before, after) then Aborted
    else
      var sealed := if Approves(before, after) then after.(sealedAt := Some(now)) else after;
      if TransitionAborts(before, sealed) then Aborted
      else if !RowChecks(sealed) || !CodeRevisionFree(db.revisions, id, sealed) then Aborted
      else if sealed.status.Approved? && !ApprovedFree(db.revisions, id, sealed.key)
      then Aborted  // uq_active_approved_weight_rev
      else
        var written := db.(revisions := db.revisions[id := sealed]);
        if Approves(before, sealed) then GuardedInsertAuthority(written, sealed.key, AuthorityRow(id, now))
        else if Releases(before, sealed) then GuardedDeleteAuthority(written, before.key)
        else Committed(written)
  }

  function InsertRow(db: Db, id: Id, row: Revision): Outcome {
    if row.status.Approved? then Aborted  // trg_block_direct_approved_insert
    else if !RowChecks(row) || id in db.revisions || !CodeRevisionFree(db.revisions, id, row) then Aborted
    else Committed(db.(revisions := db.revisions[id := row]))
  }

  function DeleteRow(db: Db, id: Id): Outcome {
    if id !in db.revisions then Committed(db)
    else if Referenced(db.authority, id) then Aborted  // ON DELETE RESTRICT
    else Committed(db.(revisions := db.revisions - {id}))
  }

  function Step(dialect: Dialect, db: Db, statement: Statement, now: Timestamp): Outcome {
    match statement
    case InsertRevision(id, row) => InsertRow(db, id, row)
    case UpdateRevision(id, row) =>
      if id !in db.revisions then Committed(db)
      else if dialect.Sqlite? then SqliteUpdate(db, id, row, now)
      else PostgresUpdate(db, id, row, now)
    case DeleteRevision(id) => DeleteRow(db, id)
    case InsertAuthority(key, row) => GuardedInsertAuthority(db, key, row)
    case UpdateAuthority(key, _, _) => GuardedUpdateAuthority(db, key)
    case DeleteAuthority(key) => GuardedDeleteAuthority(db, key)
  }

  datatype Event = Event(statement: Statement, now: Timestamp)

  // An aborted statement leaves the state unchanged and the run goes on.
  function Run(dialect: Dialect, db: Db, events: seq<Event>): Db
    decreases |events|
  {
    if events == [] then db
    else Run(dialect, Step(dialect, db, events[0].statement, events[0].now).Or(db), events[1..])
  }
}
