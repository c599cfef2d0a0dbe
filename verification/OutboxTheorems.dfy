/** Outbox safety and hash agreement over whole runs. */
module OutboxTheorems {
  import opened Wrappers
  import opened CanonicalJson
  import opened Envelope
  import opened OutboxTables

  // ----- Safety -----

  ghost predicate AuditUnique(audit: map<Id, string>) {
    forall a, b | a in audit && b in audit && audit[a] == audit[b] :: a == b
  }

  ghost predicate Safe(db: Db) {
    && AuditUnique(db.audit)
    && (forall id | id in db.outbox :: StatusNullity(db.outbox[id]))
    && (forall id | id in db.outbox && db.outbox[id].status.Published? ::
          HasAuditEvent(db.audit, db.outbox[id].envelope.eventIdentity))
  }

  // Exactly one audit event carries the row's event identity.
  ghost predicate ExactlyOneAuditEvent(audit: map<Id, string>, row: Row) {
    exists id | id in audit ::
      && Some(audit[id]) == row.envelope.eventIdentity
      && forall other | other in audit && Some(audit[other]) == row.envelope.eventIdentity :: other == id
  }

  lemma SafePublishedHasOneEvent(db: Db, id: Id)
    requires Safe(db) && id in db.outbox && db.outbox[id].status.Published?
    ensures ExactlyOneAuditEvent(db.audit, db.outbox[id])
  {
  }

  // Main result: in a safe state the columns follow the status one by one: claim columns are set
  // exactly while processing, the publish time exactly when published, the fail time exactly when
  // failed, and there is no other status.
  lemma ColumnsFollowStatus(row: Row)
    ensures StatusNullity(row) <==>
            && row.status in {Pending, Processing, Published, Failed}
            && (row.claimedAt != None <==> row.status == Processing)
            && (row.claimedBy != None <==> row.status == Processing)
            && (row.claimToken != None <==> row.status == Processing)
            && (row.claimExpiresAt != None <==> row.status == Processing)
            && (row.publishedAt != None <==> row.status == Published)
            && (row.failedAt != None <==> row.status == Failed)
  {
  }

  // Main result: an update of a row with its own event identity commits exactly when the row is not
  // terminal, envelope and hashes stay as they are, the new columns follow the new status, and a row
  // being published has its audit event.  Counters and error classes are free.
  lemma UpdateCommitsExactly(dialect: Dialect, db: Db, id: Id, row: Row)
    requires id in db.outbox && EventIdentityFree(db.outbox, id, db.outbox[id].envelope.eventIdentity)
    ensures var before := db.outbox[id];
            Step(dialect, db, UpdateOutbox(id, row)) ==
            if && before.status != Published && before.status != Failed
               && row.envelope == before.envelope
               && row.payloadHash == before.payloadHash && row.envelopeHash == before.envelopeHash
               && StatusNullity(row)
               && (row.status == Published ==>
                     exists a | a in db.audit :: Some(db.audit[a]) == row.envelope.eventIdentity)
            then Committed(Db(db.outbox[id := row], db.audit)) else Aborted
  {
    EnvelopeTriggersAgree(db.outbox[id], row);
    assert HasAuditEvent(db.audit, row.envelope.eventIdentity) <==>
           exists a | a in db.audit :: Some(db.audit[a]) == row.envelope.eventIdentity;
  }

  // No two outbox rows share an event identity.
  ghost predicate IdentitiesUnique(outbox: map<Id, Row>) {
    forall a, b | a in outbox && b in outbox && a != b ::
      outbox[a].envelope.eventIdentity != outbox[b].envelope.eventIdentity
  }

  lemma StepKeepsIdentitiesUnique(dialect: Dialect, db: Db, statement: Statement)
    requires IdentitiesUnique(db.outbox)
    ensures IdentitiesUnique(Step(dialect, db, statement).Or(db).outbox)
  {
  }

  lemma {:induction false} RunKeepsIdentitiesUnique(dialect: Dialect, db: Db, statements: seq<Statement>)
    requires IdentitiesUnique(db.outbox)
    ensures IdentitiesUnique(Run(dialect, db, statements).outbox)
    decreases |statements|
  {
    if statements != [] {
      StepKeepsIdentitiesUnique(dialect, db, statements[0]);
      RunKeepsIdentitiesUnique(dialect, Step(dialect, db, statements[0]).Or(db), statements[1..]);
    }
  }

  // Inserts commit exactly when id and identity are new and the columns follow the status.
  lemma InsertsCommitExactly(dialect: Dialect, db: Db, id: Id, row: Row, event: Id, eventIdentity: string)
    ensures Step(dialect, db, InsertOutbox(id, row)) ==
            if id !in db.outbox && row.envelope.eventIdentity != None && StatusNullity(row) &&
               forall other | other in db.outbox ::
                 db.outbox[other].envelope.eventIdentity != row.envelope.eventIdentity
            then Committed(Db(db.outbox[id := row], db.audit)) else Aborted
    ensures Step(dialect, db, InsertAudit(event, eventIdentity)) ==
            if event !in db.audit && forall other | other in db.audit :: db.audit[other] != eventIdentity
            then Committed(Db(db.outbox, db.audit[event := eventIdentity])) else Aborted
  {
  }

  // The two statements the triggers, which fire on updates only, let through: inserting a row
  // already published without its audit event, and deleting an audit event a published row needs.
  ghost predicate Harmful(dialect: Dialect, db: Db, statement: Statement) {
    match statement
    case InsertOutbox(id, row) =>
      && Step(dialect, db, statement).Committed?
      && row.status.Published? && !HasAuditEvent(db.audit, row.envelope.eventIdentity)
    case DeleteAudit(id) =>
      && id in db.audit
      && exists r | r in db.outbox ::
           db.outbox[r].status.Published? && db.outbox[r].envelope.eventIdentity == Some(db.audit[id])
    case UpdateOutbox(_, _) => false
    case DeleteOutbox(_) => false
    case InsertAudit(_, _) => false
    case UpdateAudit(_, _) => false
  }

  lemma EventKept(before: map<Id, string>, after: map<Id, string>, eventIdentity: Option<string>)
    requires HasAuditEvent(before, eventIdentity)
    requires forall id | id in before && Some(before[id]) == eventIdentity :: id in after && after[id] == before[id]
    ensures HasAuditEvent(after, eventIdentity)
  {
    var id :| id in before && Some(before[id]) == eventIdentity;
    assert id in after && Some(after[id]) == eventIdentity;
  }

  lemma HarmlessKeepsSafe(dialect: Dialect, db: Db, statement: Statement)
    requires Safe(db) && !Harmful(dialect, db, statement)
    ensures Safe(Step(dialect, db, statement).Or(db))
  {
    var next := Step(dialect, db, statement).Or(db);
    forall id | id in next.outbox && next.outbox[id].status.Published?
      ensures HasAuditEvent(next.audit, next.outbox[id].envelope.eventIdentity)
    {
      if id in db.outbox && db.outbox[id].status.Published? {
        EventKept(db.audit, next.audit, db.outbox[id].envelope.eventIdentity);
      }
    }
  }

  lemma HarmfulBreaksSafe(dialect: Dialect, db: Db, statement: Statement)
    requires Safe(db) && Harmful(dialect, db, statement)
    ensures !Safe(Step(dialect, db, statement).Or(db))
  {
    var next := Step(dialect, db, statement).Or(db);
    if statement.InsertOutbox? {
      assert statement.id in next.outbox;
    } else {
      var r :| r in db.outbox && db.outbox[r].status.Published? &&
               db.outbox[r].envelope.eventIdentity == Some(db.audit[statement.id]);
      assert r in next.outbox && !HasAuditEvent(next.audit, next.outbox[r].envelope.eventIdentity);
    }
  }

  // Main result: from a safe state one statement leads to an unsafe one exactly when it is harmful.
  lemma StepSafeExactly(dialect: Dialect, db: Db, statement: Statement)
    requires Safe(db)
    ensures Safe(Step(dialect, db, statement).Or(db)) <==> !Harmful(dialect, db, statement)
  {
    if Harmful(dialect, db, statement) {
      HarmfulBreaksSafe(dialect, db, statement);
    } else {
      HarmlessKeepsSafe(dialect, db, statement);
    }
  }

  ghost predicate HarmlessThroughout(dialect: Dialect, db: Db, statements: seq<Statement>)
    decreases |statements|
  {
    statements != [] ==>
      && !Harmful(dialect, db, statements[0])
      && HarmlessThroughout(dialect, Step(dialect, db, statements[0]).Or(db), statements[1..])
  }

  // Safe in every state the run passes through.
  ghost predicate SafeThroughout(dialect: Dialect, db: Db, statements: seq<Statement>)
    decreases |statements|
  {
    Safe(db) && (statements != [] ==> SafeThroughout(dialect, Step(dialect, db, statements[0]).Or(db), statements[1..]))
  }

  // Main result: a run stays safe exactly when none of its statements is harmful.
  lemma {:induction false} RunSafeExactly(dialect: Dialect, db: Db, statements: seq<Statement>)
    requires Safe(db)
    ensures SafeThroughout(dialect, db, statements) <==> HarmlessThroughout(dialect, db, statements)
    decreases |statements|
  {
    if statements != [] {
      StepSafeExactly(dialect, db, statements[0]);
      if !Harmful(dialect, db, statements[0]) {
        RunSafeExactly(dialect, Step(dialect, db, statements[0]).Or(db), statements[1..]);
      }
    }
  }

  // Main result: over every run without a harmful statement, claim, publish and fail columns match
  // the status, and each published row has exactly one audit event with its identity.
  lemma {:induction false} RunKeepsSafe(dialect: Dialect, db: Db, statements: seq<Statement>)
    requires Safe(db) && HarmlessThroughout(dialect, db, statements)
    ensures Safe(Run(dialect, db, statements))
    ensures var last := Run(dialect, db, statements);
            forall id | id in last.outbox && last.outbox[id].status.Published? ::
              ExactlyOneAuditEvent(last.audit, last.outbox[id])
    decreases |statements|
  {
    if statements == [] {
      forall id | id in db.outbox && db.outbox[id].status.Published?
        ensures ExactlyOneAuditEvent(db.audit, db.outbox[id])
      {
        SafePublishedHasOneEvent(db, id);
      }
    } else {
      HarmlessKeepsSafe(dialect, db, statements[0]);
      RunKeepsSafe(dialect, Step(dialect, db, statements[0]).Or(db), statements[1..]);
    }
  }

  // What an application can promise without looking at the tables: it deletes no audit event and
  // inserts no row already published.
  predicate Disciplined(statement: Statement) {
    !statement.DeleteAudit? && !(statement.InsertOutbox? && statement.row.status.Published?)
  }

  lemma {:induction false} DisciplinedIsHarmless(dialect: Dialect, db: Db, statements: seq<Statement>)
    requires forall s | s in statements :: Disciplined(s)
    ensures HarmlessThroughout(dialect, db, statements)
    decreases |statements|
  {
    if statements != [] {
      assert Disciplined(statements[0]);
      DisciplinedIsHarmless(dialect, Step(dialect, db, statements[0]).Or(db), statements[1..]);
    }
  }

  // Both parts of the promise are needed: a published row can be inserted without its event, and
  // any audit event can be one that a published row needs.
  lemma DisciplineIsNeeded(dialect: Dialect, row: Row, id: Id, event: Id)
    requires row.status.Published? && StatusNullity(row) && row.envelope.eventIdentity.Some?
    ensures var empty := Db(map[], map[]);
            Safe(empty) && !Safe(Step(dialect, empty, InsertOutbox(id, row)).Or(empty))
    ensures var full := Db(map[id := row], map[event := row.envelope.eventIdentity.value]);
            Safe(full) && !Safe(Step(dialect, full, DeleteAudit(event)).Or(full))
  {
    HarmfulBreaksSafe(dialect, Db(map[], map[]), InsertOutbox(id, row));
    var full := Db(map[id := row], map[event := row.envelope.eventIdentity.value]);
    assert id in full.outbox && event in full.audit;
    assert HasAuditEvent(full.audit, row.envelope.eventIdentity);
    HarmfulBreaksSafe(dialect, full, DeleteAudit(event));
  }

  // ----- Dialects -----

  lemma EnvelopeTriggersAgree(before: Row, after: Row)
    ensures SqliteEnvelopeAborts(before, after) <==> PostgresEnvelopeRaises(before, after).Some?
  {
  }

  // Main result: both trigger sets drive every run to the same state.
  lemma {:induction false} RunsAgree(db: Db, statements: seq<Statement>)
    ensures Run(Sqlite, db, statements) == Run(Postgres, db, statements)
    decreases |statements|
  {
    if statements != [] {
      if statements[0].UpdateOutbox? && statements[0].id in db.outbox {
        EnvelopeTriggersAgree(db.outbox[statements[0].id], statements[0].row);
      }
      RunsAgree(Step(Sqlite, db, statements[0]).Or(db), statements[1..]);
    }
  }

  // ----- Rows over a run -----

  predicate PresentThroughout(dialect: Dialect, db: Db, statements: seq<Statement>, id: Id)
    decreases |statements|
  {
    && id in db.outbox
    && (statements != [] ==>
          PresentThroughout(dialect, Step(dialect, db, statements[0]).Or(db), statements[1..], id))
  }

  // Main result: published and failed rows never change again while they exist.
  lemma {:induction false} TerminalRowsAbsorb(dialect: Dialect, db: Db, statements: seq<Statement>, id: Id)
    requires PresentThroughout(dialect, db, statements, id)
    requires db.outbox[id].status.Published? || db.outbox[id].status.Failed?
    ensures id in Run(dialect, db, statements).outbox
    ensures Run(dialect, db, statements).outbox[id] == db.outbox[id]
    decreases |statements|
  {
    if statements != [] {
      TerminalRowsAbsorb(dialect, Step(dialect, db, statements[0]).Or(db), statements[1..], id);
    }
  }

  // ----- Hash agreement -----

  // The stored hashes are the frozen algorithm's hashes of the stored columns.
  ghost predicate HashAgrees(iso: DateTime -> string, sha: string -> string, row: Row) {
    && EnvelopeHash(iso, sha, row.envelope) == Ok(row.envelopeHash)
    && Canonical(Outbox, iso, row.envelope.payload).Ok?
    && sha(Canonical(Outbox, iso, row.envelope.payload).value) == row.payloadHash
  }

  // The envelope trigger covers every hashed column.
  lemma TriggerCoversHashedColumns(dialect: Dialect, before: Row, after: Row)
    requires !EnvelopeAborts(dialect, before, after)
    ensures after.envelope == before.envelope
    ensures after.envelopeHash == before.envelopeHash && after.payloadHash == before.payloadHash
  {
  }

  // Main result: once the stored hashes of a row agree with its columns, they agree after any
  // run for as long as the row exists.
  lemma {:induction false} HashAgreementForever(dialect: Dialect, iso: DateTime -> string, sha: string -> string,
                                                db: Db, statements: seq<Statement>, id: Id)
    requires PresentThroughout(dialect, db, statements, id)
    requires HashAgrees(iso, sha, db.outbox[id])
    ensures id in Run(dialect, db, statements).outbox
    ensures Run(dialect, db, statements).outbox[id].envelope == db.outbox[id].envelope
    ensures HashAgrees(iso, sha, Run(dialect, db, statements).outbox[id])
    decreases |statements|
  {
    if statements != [] {
      var next := Step(dialect, db, statements[0]).Or(db);
      if statements[0].UpdateOutbox? && statements[0].id == id && next != db {
        TriggerCoversHashedColumns(dialect, db.outbox[id], statements[0].row);
      }
      HashAgreementForever(dialect, iso, sha, next, statements[1..], id);
    }
  }
}
