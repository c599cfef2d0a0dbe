/** The audit outbox table, its constraints and the two trigger sets that guard it. */
module OutboxTables {
  import opened Wrappers
  import opened CanonicalJson
  import opened Envelope

  type Id = string
  type Timestamp = int  // opaque instants

  datatype Status = Pending | Processing | Published | Failed | Unlisted(text: string)

  datatype Row = Row(
    envelope: Envelope,
    payloadHash: string,
    envelopeHash: string,
    status: Status,
    claimedAt: Option<Timestamp>,
    claimedBy: Option<string>,
    claimToken: Option<string>,
    claimExpiresAt: Option<Timestamp>,
    publishedAt: Option<Timestamp>,
    failedAt: Option<Timestamp>,
    attemptCount: int,
    lastErrorClass: Option<string>)

  // Audit events are kept as the outbox event each one materialises.
  datatype Db = Db(outbox: map<Id, Row>, audit: map<Id, string>)

  datatype Statement =
    | InsertOutbox(id: Id, row: Row)
    | UpdateOutbox(id: Id, row: Row)
    | DeleteOutbox(id: Id)
    | InsertAudit(id: Id, eventIdentity: string)
    | UpdateAudit(id: Id, eventIdentity: string)
    | DeleteAudit(id: Id)

  datatype Dialect = Sqlite | Postgres

  datatype Outcome = Committed(db: Db) | Aborted {
    function Or(before: Db): Db {
      if Committed? then db else before
    }
  }

  predicate ClaimNull(row: Row) {
    row.claimedAt.None? && row.claimedBy.None? && row.claimToken.None? && row.claimExpiresAt.None?
  }

  predicate ClaimSet(row: Row) {
    row.claimedAt.Some? && row.claimedBy.Some? && row.claimToken.Some? && row.claimExpiresAt.Some?
  }

  // ck_outbox_status_nullity
  predicate StatusNullity(row: Row) {
    || (row.status.Pending? && ClaimNull(row) && row.publishedAt.None? && row.failedAt.None?)
    || (row.status.Processing? && ClaimSet(row) && row.publishedAt.None? && row.failedAt.None?)
    || (row.status.Published? && row.publishedAt.Some? && row.failedAt.None? && ClaimNull(row))
    || (row.status.Failed? && row.failedAt.Some? && row.publishedAt.None? && ClaimNull(row))
  }

  // No other outbox row has this event identity.
  predicate EventIdentityFree(outbox: map<Id, Row>, id: Id, eventIdentity: Option<string>) {
    forall other | other in outbox && other != id :: outbox[other].envelope.eventIdentity != eventIdentity
  }

  predicate AuditIdentityFree(audit: map<Id, string>, id: Id, eventIdentity: string) {
    forall other | other in audit && other != id :: audit[other] != eventIdentity
  }

  predicate HasAuditEvent(audit: map<Id, string>, eventIdentity: Option<string>) {
    exists id | id in audit :: Some(audit[id]) == eventIdentity
  }

  // ----- Triggers -----

  // WHEN clause of the SQLite envelope trigger.
  predicate SqliteEnvelopeAborts(before: Row, after: Row) {
    var o, n := before.envelope, after.envelope;
    || before.status.Published? || before.status.Failed?
    || n.eventIdentity != o.eventIdentity
    || n.eventType != o.eventType
    || n.eventSchemaVersion != o.eventSchemaVersion
    || n.aggregateType != o.aggregateType
    || n.aggregateId != o.aggregateId
    || n.actor != o.actor
    || n.correlationId != o.correlationId
    || n.occurredAt != o.occurredAt
    || n.payload != o.payload
    || after.payloadHash != before.payloadHash
    || after.envelopeHash != before.envelopeHash
    || n.requestId != o.requestId
    || n.identityId != o.identityId
    || n.attemptId != o.attemptId
    || n.calculationRunId != o.calculationRunId
    || n.sourceBindingId != o.sourceBindingId
  }

  datatype Exception = ModifiesPublished | ModifiesFailed | ModifiesEnvelope

  // Body of the PostgreSQL envelope trigger function.
  function PostgresEnvelopeRaises(before: Row, after: Row): Option<Exception> {
    var o, n := before.envelope, after.envelope;
    if before.status.Published? then Some(ModifiesPublished)
    else if before.status.Failed? then Some(ModifiesFailed)
    else if
      || n.eventIdentity != o.eventIdentity
      || n.eventType != o.eventType
      || n.eventSchemaVersion != o.eventSchemaVersion
      || n.aggregateType != o.aggregateType
      || n.aggregateId != o.aggregateId
      || n.actor != o.actor
      || n.correlationId != o.correlationId
      || n.occurredAt != o.occurredAt
      || n.payload != o.payload
      || after.payloadHash != before.payloadHash
      || after.envelopeHash != before.envelopeHash
      || n.requestId != o.requestId
      || n.identityId != o.identityId
      || n.attemptId != o.attemptId
      || n.calculationRunId != o.calculationRunId
      || n.sourceBindingId != o.sourceBindingId
    then Some(ModifiesEnvelope)
    else None
  }

  predicate EnvelopeAborts(dialect: Dialect, before: Row, after: Row) {
    match dialect
    case Sqlite => SqliteEnvelopeAborts(before, after)
    case Postgres => PostgresEnvelopeRaises(before, after).Some?
  }

  predicate PublishAborts(audit: map<Id, string>, before: Row, after: Row) {
    after.status.Published? && !before.status.Published? && !HasAuditEvent(audit, after.envelope.eventIdentity)
  }

  function UpdateOutboxRow(dialect: Dialect, db: Db, id: Id, row: Row): Outcome {
    if id !in db.outbox then Committed(db)
    else if EnvelopeAborts(dialect, db.outbox[id], row) || PublishAborts(db.audit, db.outbox[id], row) then Aborted
    else if !StatusNullity(row) || !EventIdentityFree(db.outbox, id, row.envelope.eventIdentity) then Aborted
    else Committed(db.(outbox := db.outbox[id := row]))
  }

  function Step(dialect: Dialect, db: Db, statement: Statement): Outcome {
    match statement
    case InsertOutbox(id, row) =>
      if id in db.outbox || row.envelope.eventIdentity.None? || !StatusNullity(row)
         || !EventIdentityFree(db.outbox, id, row.envelope.eventIdentity) then Aborted
      else Committed(db.(outbox := db.outbox[id := row]))
    case UpdateOutbox(id, row) => UpdateOutboxRow(dialect, db, id, row)
    case DeleteOutbox(id) => Committed(db.(outbox := db.outbox - {id}))
    case InsertAudit(id, eventIdentity) =>
      if id in db.audit || !AuditIdentityFree(db.audit, id, eventIdentity) then Aborted
      else Committed(db.(audit := db.audit[id := eventIdentity]))
    case UpdateAudit(id, eventIdentity) =>
      // the stored column is never null, so the two identity triggers read alike
      if id in db.audit && db.audit[id] != eventIdentity then Aborted else Committed(db)
    case DeleteAudit(id) => Committed(db.(audit := db.audit - {id}))
  }

  function Run(dialect: Dialect, db: Db, statements: seq<Statement>): Db
    decreases |statements|
  {
    if statements == [] then db
    else Run(dialect, Step(dialect, db, statements[0]).Or(db), statements[1..])
  }
}
