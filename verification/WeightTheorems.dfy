/** What every run of the weight-revision triggers keeps, and where the two dialects agree. */
module WeightTheorems {
  import opened Wrappers
  import opened WeightTables
  import opened WeightTriggers

  // ----- The intended machine -----

  // The nested seal of SQLite passes the immutability trigger only when it changes nothing.
  predicate SealClear(before: Revision, after: Revision, now: Timestamp) {
    Approves(before, after) ==> after.sealedAt == None || after.sealedAt == Some(now)
  }

  predicate UpdateAllowed(db: Db, id: Id, after: Revision)
    requires id in db.revisions
  {
    var before := db.revisions[id];
    && (before.sealedAt.Some? ==> FrozenColumnsEqual(before, after))
    && (before.status == after.status || LegalTransition(before.status, after.status))
    && RowChecks(after)
    && CodeRevisionFree(db.revisions, id, after)
    && (Approves(before, after) ==> after.key !in db.authority)
  }

  // What an allowed update does: approving seals the row and claims its key, leaving force
  // releases the key, and any other update touches one revision row only.
  function Updated(db: Db, id: Id, after: Revision, now: Timestamp): Db
    requires id in db.revisions
  {
    var before := db.revisions[id];
    if Approves(before, after) then
      Db(db.revisions[id := after.(sealedAt := Some(now))],
         db.authority[after.key := AuthorityRow(id, now)])
    else if Releases(before, after) then
      Db(db.revisions[id := after], db.authority - {before.key})
    else
      Db(db.revisions[id := after], db.authority)
  }

  lemma RivalMeansClaimed(db: Db, id: Id, key: Key)
    requires Inv(db)
    requires id in db.revisions && !db.revisions[id].status.Approved?
    ensures ApprovedFree(db.revisions, id, key) <==> key !in db.authority
  {
  }

  // An approved row stays the only one approved under its key.
  lemma ApprovedIsUnrivalled(db: Db, id: Id)
    requires Inv(db)
    requires id in db.revisions && db.revisions[id].status.Approved?
    ensures ApprovedFree(db.revisions, id, db.revisions[id].key)
  {
  }

  lemma SqliteUpdateRefines(db: Db, id: Id, after: Revision, now: Timestamp)
    requires Inv(db) && id in db.revisions
    ensures SqliteUpdate(db, id, after, now) ==
            if UpdateAllowed(db, id, after) && SealClear(db.revisions[id], after, now)
            then Committed(Updated(db, id, after, now)) else Aborted
  {
  }

  lemma PostgresUpdateRefines(db: Db, id: Id, after: Revision, now: Timestamp)
    requires Inv(db) && id in db.revisions
    ensures PostgresUpdate(db, id, after, now) ==
            if UpdateAllowed(db, id, after) then Committed(Updated(db, id, after, now)) else Aborted
  {
  }

  // ----- The invariant over one statement and over whole runs -----

  lemma ApprovalKeepsInv(db: Db, id: Id, after: Revision, now: Timestamp)
    requires Inv(db) && id in db.revisions && UpdateAllowed(db, id, after) && Approves(db.revisions[id], after)
    ensures Inv(Updated(db, id, after, now))
  {
  }

  lemma OtherUpdateKeepsInv(db: Db, id: Id, after: Revision, now: Timestamp)
    requires Inv(db) && id in db.revisions && UpdateAllowed(db, id, after) && !Approves(db.revisions[id], after)
    ensures Inv(Updated(db, id, after, now))
  {
    if db.revisions[id].status.Approved? {
      assert db.authority[db.revisions[id].key].revisionId == id;
    }
  }

  lemma UpdatedKeepsInv(db: Db, id: Id, after: Revision, now: Timestamp)
    requires Inv(db) && id in db.revisions && UpdateAllowed(db, id, after)
    ensures Inv(Updated(db, id, after, now))
  {
    if Approves(db.revisions[id], after) {
      ApprovalKeepsInv(db, id, after, now);
    } else {
      OtherUpdateKeepsInv(db, id, after, now);
    }
  }

  lemma StepKeepsInv(dialect: Dialect, db: Db, statement: Statement, now: Timestamp)
    requires Inv(db)
    ensures Inv(Step(dialect, db, statement, now).Or(db))
  {
    match statement
    case UpdateRevision(id, row) =>
      if id in db.revisions {
        SqliteUpdateRefines(db, id, row, now);
        PostgresUpdateRefines(db, id, row, now);
        if UpdateAllowed(db, id, row) {
          UpdatedKeepsInv(db, id, row, now);
        }
      }
    case DeleteRevision(id) =>
      if id in db.revisions && db.revisions[id].status.Approved? {
        assert db.authority[db.revisions[id].key].revisionId == id;
      }
    case _ =>
  }

  // Main result: in every run of inserts, updates and deletes on both tables, in either dialect,
  // the authority rows stay exactly the map (weight set, code) -> approved revision.
  lemma {:induction false} RunKeepsInv(dialect: Dialect, db: Db, events: seq<Event>)
    requires Inv(db)
    ensures Inv(Run(dialect, db, events))
    decreases |events|
  {
    if events != [] {
      StepKeepsInv(dialect, db, events[0].statement, events[0].now);
      RunKeepsInv(dialect, Step(dialect, db, events[0].statement, events[0].now).Or(db), events[1..]);
    }
  }

  predicate TouchesAuthorityDirectly(statement: Statement) {
    statement.InsertAuthority? || statement.UpdateAuthority? || statement.DeleteAuthority?
  }

  // From an invariant state no direct write to the authority table changes anything: an insert
  // always aborts, and an update or delete aborts as soon as it matches a row.
  lemma DirectAuthorityWritesFail(dialect: Dialect, db: Db, statement: Statement, now: Timestamp)
    requires Inv(db) && TouchesAuthorityDirectly(statement)
    ensures Step(dialect, db, statement, now).Or(db) == db
    ensures statement.InsertAuthority? || statement.key in db.authority ==>
              Step(dialect, db, statement, now) == Aborted
  {
  }

  // ----- The two dialects -----

  // The one statement the dialects can treat differently: approving a row that is written, or
  // already stored, with some other seal time.
  predicate SealConflict(db: Db, statement: Statement, now: Timestamp) {
    && statement.UpdateRevision?
    && statement.id in db.revisions
    && !SealClear(db.revisions[statement.id], statement.row, now)
  }

  // Outside the seal conflict the dialects commit the same state or both abort; inside it SQLite
  // always aborts, and PostgreSQL commits whenever the update is otherwise allowed.
  lemma DialectsAgree(db: Db, statement: Statement, now: Timestamp)
    requires Inv(db)
    ensures !SealConflict(db, statement, now) ==>
              Step(Sqlite, db, statement, now) == Step(Postgres, db, statement, now)
    ensures SealConflict(db, statement, now) ==>
              && Step(Sqlite, db, statement, now) == Aborted
              && (Step(Postgres, db, statement, now) == Aborted <==> !UpdateAllowed(db, statement.id, statement.row))
  {
    if statement.UpdateRevision? && statement.id in db.revisions {
      SqliteUpdateRefines(db, statement.id, statement.row, now);
      PostgresUpdateRefines(db, statement.id, statement.row, now);
    }
  }

  // The dialects differ on a statement exactly when it is an otherwise allowed seal conflict.
  lemma DialectsDifferExactly(db: Db, statement: Statement, now: Timestamp)
    requires Inv(db)
    ensures Step(Sqlite, db, statement, now) != Step(Postgres, db, statement, now) <==>
            SealConflict(db, statement, now) && UpdateAllowed(db, statement.id, statement.row)
  {
    DialectsAgree(db, statement, now);
  }

  // A draft stored with a seal time shows the difference: SQLite refuses the approval that
  // PostgreSQL commits.
  lemma SealConflictExample()
    ensures exists db, statement, now ::
              && Inv(db)
              && Step(Sqlite, db, statement, now) == Aborted
              && Step(Postgres, db, statement, now).Committed?
  {
    var draft := Revision(Key("ws", "c"), 1, Draft, "{}", "h", "1", Some(3), Some("a"), 1, Some(5));
    var db := Db(map["r" := draft], map[]);
    var statement := UpdateRevision("r", draft.(status := Approved));
    SqliteUpdateRefines(db, "r", draft.(status := Approved), 7);
    PostgresUpdateRefines(db, "r", draft.(status := Approved), 7);
    assert Step(Postgres, db, statement, 7).Committed?;
  }

  // ----- Why approved rows are sealed -----

  // What the CHECKs already say about stored rows.
  predicate ChecksHold(revisions: map<Id, Revision>) {
    forall id | id in revisions :: RowChecks(revisions[id])
  }

  ghost predicate CorrespondsForever(dialect: Dialect, db: Db) {
    forall events :: Corresponds(Run(dialect, db, events))
  }

  // A code no stored row has: one longer than all of theirs.
  lemma {:induction false} FreshCode(revisions: map<Id, Revision>) returns (code: string)
    ensures forall id | id in revisions :: |revisions[id].key.code| < |code|
    decreases |revisions|
  {
    if revisions == map[] {
      return "c";
    }
    var id :| id in revisions;
    var rest := revisions - {id};
    code := FreshCode(rest);
    code := code + revisions[id].key.code + "c";
    assert forall other | other in revisions && other != id :: other in rest;
  }

  // An unsealed approved row can be given a fresh code while its authority row stays.
  lemma UnsealedApprovedEscapes(dialect: Dialect, db: Db, id: Id) returns (statement: Statement)
    requires Corresponds(db) && ChecksHold(db.revisions)
    requires id in db.revisions && db.revisions[id].status.Approved? && db.revisions[id].sealedAt.None?
    ensures !Corresponds(Step(dialect, db, statement, 0).Or(db))
  {
    var before := db.revisions[id];
    var code := FreshCode(db.revisions);
    var moved := before.(key := Key(before.key.weightSetId, code));
    statement := UpdateRevision(id, moved);
    assert ApprovedFree(db.revisions, id, moved.key);
    assert CodeRevisionFree(db.revisions, id, moved);
    assert Step(dialect, db, statement, 0) == Committed(Db(db.revisions[id := moved], db.authority));
    assert before.key in db.authority && db.authority[before.key].revisionId == id;
  }

  // Main result: on tables that correspond and meet their CHECKs, every run in either dialect
  // keeps the correspondence exactly when every approved row is sealed.
  lemma SealsDecideCorrespondence(dialect: Dialect, db: Db)
    requires Corresponds(db) && ChecksHold(db.revisions)
    ensures CorrespondsForever(dialect, db) <==> ApprovedAreSealed(db.revisions)
  {
    if ApprovedAreSealed(db.revisions) {
      forall events
        ensures Corresponds(Run(dialect, db, events))
      {
        RunKeepsInv(dialect, db, events);
      }
    } else {
      var id :| id in db.revisions && db.revisions[id].status.Approved? && !db.revisions[id].sealedAt.Some?;
      var statement := UnsealedApprovedEscapes(dialect, db, id);
      var events := [Event(statement, 0)];
      assert events[1..] == [];
      assert !Corresponds(Run(dialect, db, events));
    }
  }

  // The statement leaves `sealed_at` alone: an insert stores no seal on a draft, an update
  // writes back the stored value.
  predicate LeavesSealAlone(db: Db, statement: Statement) {
    && (statement.InsertRevision? && statement.row.status.Draft? ==> statement.row.sealedAt.None?)
    && (statement.UpdateRevision? && statement.id in db.revisions ==>
          statement.row.sealedAt == db.revisions[statement.id].sealedAt)
  }

  predicate RunLeavesSealAlone(dialect: Dialect, db: Db, events: seq<Event>)
    decreases |events|
  {
    events == [] ||
    (&& LeavesSealAlone(db, events[0].statement)
     && RunLeavesSealAlone(dialect, Step(dialect, db, events[0].statement, events[0].now).Or(db), events[1..]))
  }

  lemma StepKeepsDraftsUnsealed(dialect: Dialect, db: Db, statement: Statement, now: Timestamp)
    requires Inv(db) && DraftsAreUnsealed(db.revisions) && LeavesSealAlone(db, statement)
    ensures DraftsAreUnsealed(Step(dialect, db, statement, now).Or(db).revisions)
  {
    if statement.UpdateRevision? && statement.id in db.revisions {
      SqliteUpdateRefines(db, statement.id, statement.row, now);
      PostgresUpdateRefines(db, statement.id, statement.row, now);
    }
  }

  // Main result: from an invariant state with unsealed drafts, every run of statements that do
  // not write `sealed_at` reaches the same state on SQLite and on PostgreSQL.
  lemma {:induction false} RunsAgree(db: Db, events: seq<Event>)
    requires Inv(db) && DraftsAreUnsealed(db.revisions)
    requires RunLeavesSealAlone(Sqlite, db, events)
    ensures Run(Sqlite, db, events) == Run(Postgres, db, events)
    decreases |events|
  {
    if events != [] {
      var statement, now := events[0].statement, events[0].now;
      assert !SealConflict(db, statement, now);
      DialectsAgree(db, statement, now);
      StepKeepsInv(Sqlite, db, statement, now);
      StepKeepsDraftsUnsealed(Sqlite, db, statement, now);
      RunsAgree(Step(Sqlite, db, statement, now).Or(db), events[1..]);
    }
  }

  // ----- Sealed history -----

  // `id` names a row in every state the run passes through.
  predicate PresentThroughout(dialect: Dialect, db: Db, events: seq<Event>, id: Id)
    decreases |events|
  {
    && id in db.revisions
    && (events != [] ==>
          PresentThroughout(dialect, Step(dialect, db, events[0].statement, events[0].now).Or(db), events[1..], id))
  }

  // The statuses the row shows, one per state of the run.
  function StatusHistory(dialect: Dialect, db: Db, events: seq<Event>, id: Id): (history: seq<Status>)
    requires PresentThroughout(dialect, db, events, id)
    ensures |history| == |events| + 1
    decreases |events|
  {
    [db.revisions[id].status] +
    if events == [] then []
    else StatusHistory(dialect, Step(dialect, db, events[0].statement, events[0].now).Or(db), events[1..], id)
  }

  lemma StepMovesRow(dialect: Dialect, db: Db, statement: Statement, now: Timestamp, id: Id)
    requires Inv(db) && id in db.revisions
    requires id in Step(dialect, db, statement, now).Or(db).revisions
    ensures var before, after := db.revisions[id], Step(dialect, db, statement, now).Or(db).revisions[id];
            && (before.status == after.status || LegalTransition(before.status, after.status))
            && (before.sealedAt.Some? ==> FrozenColumnsEqual(before, after) || Approves(before, after))
            && (before.sealedAt.Some? && !before.status.Draft? ==> FrozenColumnsEqual(before, after))
            && (Approves(before, after) ==> after.sealedAt.Some?)
  {
    if statement.UpdateRevision? && statement.id in db.revisions {
      SqliteUpdateRefines(db, statement.id, statement.row, now);
      PostgresUpdateRefines(db, statement.id, statement.row, now);
    }
  }

  // Main result: once a revision has been approved, its frozen columns, seal time included, are
  // the same in every later state for as long as its row exists.
  lemma {:induction false} SealedForever(dialect: Dialect, db: Db, events: seq<Event>, id: Id)
    requires Inv(db) && PresentThroughout(dialect, db, events, id)
    requires !db.revisions[id].status.Draft? && db.revisions[id].sealedAt.Some?
    ensures id in Run(dialect, db, events).revisions
    ensures var last := Run(dialect, db, events).revisions[id];
            last == db.revisions[id].(status := last.status, createdAt := last.createdAt)
    decreases |events|
  {
    if events != [] {
      var next := Step(dialect, db, events[0].statement, events[0].now).Or(db);
      StepMovesRow(dialect, db, events[0].statement, events[0].now, id);
      StepKeepsInv(dialect, db, events[0].statement, events[0].now);
      SealedForever(dialect, next, events[1..], id);
    }
  }

  // Consecutive repetitions removed.
  function Distinct(history: seq<Status>): (path: seq<Status>)
    ensures history != [] ==> path != [] && path[0] == history[0]
  {
    if |history| < 2 then history
    else if history[0] == history[1] then Distinct(history[1..])
    else [history[0]] + Distinct(history[1..])
  }

  // The tails of draft, approved, then superseded or revoked.
  predicate LifecyclePath(path: seq<Status>) {
    || |path| == 1
    || path == [Draft, Approved] || path == [Approved, Superseded] || path == [Approved, Revoked]
    || path == [Draft, Approved, Superseded] || path == [Draft, Approved, Revoked]
  }

  // Main result: over any run, the statuses a row shows are a stretch of draft, approved, then
  // superseded or revoked; starting from a draft, a prefix of it.
  lemma {:induction false} StatusHistoryIsLifecycle(dialect: Dialect, db: Db, events: seq<Event>, id: Id)
    requires Inv(db) && PresentThroughout(dialect, db, events, id)
    ensures LifecyclePath(Distinct(StatusHistory(dialect, db, events, id)))
    ensures Distinct(StatusHistory(dialect, db, events, id))[0] == db.revisions[id].status
    decreases |events|
  {
    if events != [] {
      var next := Step(dialect, db, events[0].statement, events[0].now).Or(db);
      StepMovesRow(dialect, db, events[0].statement, events[0].now, id);
      StepKeepsInv(dialect, db, events[0].statement, events[0].now);
      StatusHistoryIsLifecycle(dialect, next, events[1..], id);
      var history := StatusHistory(dialect, db, events, id);
      assert history[1..] == StatusHistory(dialect, next, events[1..], id);
    }
  }

  // ----- Approval evidence -----

  lemma StepKeepsChecks(dialect: Dialect, db: Db, statement: Statement, now: Timestamp)
    requires Inv(db) && ChecksHold(db.revisions)
    ensures ChecksHold(Step(dialect, db, statement, now).Or(db).revisions)
  {
    if statement.UpdateRevision? && statement.id in db.revisions {
      SqliteUpdateRefines(db, statement.id, statement.row, now);
      PostgresUpdateRefines(db, statement.id, statement.row, now);
    }
  }

  // Main result: in every run an approved revision carries its approval time and a named approver,
  // and no revision has a status outside the lifecycle.
  lemma {:induction false} RunKeepsEvidence(dialect: Dialect, db: Db, events: seq<Event>)
    requires Inv(db) && ChecksHold(db.revisions)
    ensures forall id | id in Run(dialect, db, events).revisions ::
              var row := Run(dialect, db, events).revisions[id];
              && row.status in {Draft, Approved, Superseded, Revoked}
              && (row.status == Approved ==> row.approvedAt != None && row.approvedBy !in {None, Some("")})
    decreases |events|
  {
    if events != [] {
      StepKeepsInv(dialect, db, events[0].statement, events[0].now);
      StepKeepsChecks(dialect, db, events[0].statement, events[0].now);
      RunKeepsEvidence(dialect, Step(dialect, db, events[0].statement, events[0].now).Or(db), events[1..]);
    }
  }

  // No two revisions share code and revision number.
  ghost predicate CodesUnique(revisions: map<Id, Revision>) {
    forall a, b | a in revisions && b in revisions && a != b ::
      revisions[a].key.code != revisions[b].key.code || revisions[a].revision != revisions[b].revision
  }

  lemma RowKeepsCodesUnique(revisions: map<Id, Revision>, id: Id, row: Revision)
    requires CodesUnique(revisions) && CodeRevisionFree(revisions, id, row)
    ensures CodesUnique(revisions[id := row])
  {
  }

  lemma StepKeepsCodesUnique(dialect: Dialect, db: Db, statement: Statement, now: Timestamp)
    requires Inv(db) && CodesUnique(db.revisions)
    ensures CodesUnique(Step(dialect, db, statement, now).Or(db).revisions)
  {
    match statement
    case UpdateRevision(id, row) =>
      if id in db.revisions {
        SqliteUpdateRefines(db, id, row, now);
        PostgresUpdateRefines(db, id, row, now);
        if UpdateAllowed(db, id, row) {
          RowKeepsCodesUnique(db.revisions, id, row);
          RowKeepsCodesUnique(db.revisions, id, row.(sealedAt := Some(now)));
        }
      }
    case InsertRevision(id, row) =>
      if CodeRevisionFree(db.revisions, id, row) {
        RowKeepsCodesUnique(db.revisions, id, row);
      }
    case DeleteRevision(_) =>
    case InsertAuthority(_, _) =>
    case UpdateAuthority(_, _, _) =>
    case DeleteAuthority(_) =>
  }

  lemma {:induction false} RunKeepsCodesUnique(dialect: Dialect, db: Db, events: seq<Event>)
    requires Inv(db) && CodesUnique(db.revisions)
    ensures CodesUnique(Run(dialect, db, events).revisions)
    decreases |events|
  {
    if events != [] {
      var statement, now := events[0].statement, events[0].now;
      StepKeepsCodesUnique(dialect, db, statement, now);
      StepKeepsInv(dialect, db, statement, now);
      RunKeepsCodesUnique(dialect, Step(dialect, db, statement, now).Or(db), events[1..]);
    }
  }

  // ----- The lifecycle is open -----

  // A new draft is stored as written when its id and its (code, revision) are new.
  lemma DraftIsStored(dialect: Dialect, db: Db, id: Id, row: Revision, now: Timestamp)
    requires row.status == Draft && id !in db.revisions
    requires forall other | other in db.revisions ::
               db.revisions[other].key.code != row.key.code || db.revisions[other].revision != row.revision
    ensures Step(dialect, db, InsertRevision(id, row), now) == Committed(Db(db.revisions[id := row], db.authority))
  {
  }

  // Main result: approving an unsealed draft with evidence, while no revision is approved under its
  // key, succeeds in both dialects, seals the row and claims the key.
  lemma ApprovalTakesEffect(dialect: Dialect, db: Db, id: Id, at: Timestamp, approver: string, now: Timestamp)
    requires Inv(db) && id in db.revisions && CodeRevisionFree(db.revisions, id, db.revisions[id])
    requires db.revisions[id].status == Draft && db.revisions[id].sealedAt == None && approver != ""
    requires forall other | other in db.revisions && db.revisions[other].status == Approved ::
               db.revisions[other].key != db.revisions[id].key
    ensures var row := db.revisions[id].(status := Approved, approvedAt := Some(at), approvedBy := Some(approver));
            Step(dialect, db, UpdateRevision(id, row), now) ==
            Committed(Db(db.revisions[id := row.(sealedAt := Some(now))],
                         db.authority[row.key := AuthorityRow(id, now)]))
  {
    var row := db.revisions[id].(status := Approved, approvedAt := Some(at), approvedBy := Some(approver));
    RivalMeansClaimed(db, id, row.key);
    SqliteUpdateRefines(db, id, row, now);
    PostgresUpdateRefines(db, id, row, now);
  }

  // Main result: superseding or revoking an approved revision succeeds in both dialects, keeps its
  // seal and releases its key.
  lemma ReleaseTakesEffect(dialect: Dialect, db: Db, id: Id, to: Status, now: Timestamp)
    requires Inv(db) && id in db.revisions && CodeRevisionFree(db.revisions, id, db.revisions[id])
    requires db.revisions[id].status == Approved && to in {Superseded, Revoked}
    ensures var row := db.revisions[id].(status := to);
            Step(dialect, db, UpdateRevision(id, row), now) ==
            Committed(Db(db.revisions[id := row], db.authority - {row.key}))
  {
    var row := db.revisions[id].(status := to);
    SqliteUpdateRefines(db, id, row, now);
    PostgresUpdateRefines(db, id, row, now);
  }

  // Any edit of an unsealed draft that leaves it a draft is stored, unless it takes another row's
  // (code, revision).
  lemma DraftIsEditable(dialect: Dialect, db: Db, id: Id, row: Revision, now: Timestamp)
    requires Inv(db) && id in db.revisions && CodeRevisionFree(db.revisions, id, row)
    requires db.revisions[id].status == Draft && db.revisions[id].sealedAt == None && row.status == Draft
    ensures Step(dialect, db, UpdateRevision(id, row), now) == Committed(Db(db.revisions[id := row], db.authority))
  {
    SqliteUpdateRefines(db, id, row, now);
    PostgresUpdateRefines(db, id, row, now);
  }

  // A revision can be deleted exactly when it is not approved.
  lemma DeletionExactly(dialect: Dialect, db: Db, id: Id, now: Timestamp)
    requires Inv(db) && id in db.revisions
    ensures Step(dialect, db, DeleteRevision(id), now) ==
            if db.revisions[id].status == Approved then Aborted
            else Committed(Db(db.revisions - {id}, db.authority))
  {
    if db.revisions[id].status == Approved {
      assert db.authority[db.revisions[id].key].revisionId == id;
    }
  }
}
