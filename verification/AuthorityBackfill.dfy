/** The upgrade that turns existing tables into an invariant state: sealing of non-draft rows,
    then the fail-closed backfill of the authority table; and the matching downgrade step. */
module AuthorityBackfill {
  import opened Wrappers
  import opened WeightTables
  import opened WeightTriggers
  import opened WeightTheorems

  datatype Failure =
    | DuplicateApproved
    | MissingRevision
    | NotApproved
    | WrongWeightSet
    | WrongCode
    | InsertConflict
    | CountMismatch
    | InvalidReference

  // Two approved revisions share a key.
  predicate Duplicates(revisions: map<Id, Revision>) {
    exists a, b | a in revisions && b in revisions ::
      a != b && revisions[a].status.Approved? && revisions[b].status.Approved? && revisions[a].key == revisions[b].key
  }

  predicate RowConsistent(revisions: map<Id, Revision>, key: Key, row: AuthorityRow) {
    && row.revisionId in revisions
    && revisions[row.revisionId].status.Approved?
    && revisions[row.revisionId].key == key
  }

  // What is wrong with an existing row, checked in this order.
  predicate HasFault(revisions: map<Id, Revision>, key: Key, row: AuthorityRow, fault: Failure) {
    match fault
    case MissingRevision => row.revisionId !in revisions
    case NotApproved => row.revisionId in revisions && revisions[row.revisionId].status != Approved
    case WrongWeightSet =>
      && row.revisionId in revisions && revisions[row.revisionId].status == Approved
      && revisions[row.revisionId].key.weightSetId != key.weightSetId
    case WrongCode =>
      && row.revisionId in revisions && revisions[row.revisionId].status == Approved
      && revisions[row.revisionId].key.weightSetId == key.weightSetId && revisions[row.revisionId].key.code != key.code
    case DuplicateApproved => false
    case InsertConflict => false
    case CountMismatch => false
    case InvalidReference => false
  }

  predicate RowsConsistent(db: Db) {
    forall key | key in db.authority :: RowConsistent(db.revisions, key, db.authority[key])
  }

  function ApprovedIds(revisions: map<Id, Revision>): set<Id> {
    set id | id in revisions && revisions[id].status.Approved?
  }

  function ReferencedIds(authority: map<Key, AuthorityRow>): set<Id> {
    set key | key in authority :: authority[key].revisionId
  }

  // COALESCE(approved_at, created_at)
  function EvidenceTime(row: Revision): Timestamp {
    row.approvedAt.GetOr(row.createdAt)
  }

  function SealRow(row: Revision): Revision {
    if row.status.Draft? then row else row.(sealedAt := Some(EvidenceTime(row)))
  }

  // The authority table has as many rows as there are approved revisions when it corresponds.
  lemma {:induction false} SameCount(revisions: map<Id, Revision>, authority: map<Key, AuthorityRow>, ids: set<Id>)
    requires RowsConsistent(Db(revisions, authority))
    requires forall key | key in authority :: authority[key].revisionId in ids
    requires forall id | id in ids ::
               id in revisions && revisions[id].key in authority && authority[revisions[id].key].revisionId == id
    ensures |authority| == |ids|
    decreases |ids|
  {
    if ids == {} {
      assert authority == map[];
    } else {
      var id :| id in ids;
      var key := revisions[id].key;
      var rest := authority - {key};
      assert authority.Keys == rest.Keys + {key};
      SameCount(revisions, rest, ids - {id});
    }
  }

  // Every revision in `done` has its authority row; existing rows are kept and new rows carry
  // the approval time of their revision.
  ghost predicate Filled(revisions: map<Id, Revision>, before: map<Key, AuthorityRow>,
                         authority: map<Key, AuthorityRow>, done: set<Id>) {
    && RowsConsistent(Db(revisions, authority))
    && (forall key | key in before :: key in authority && authority[key] == before[key])
    && (forall key | key in authority && key !in before ::
          var id := authority[key].revisionId;
          id in done && id in revisions && authority[key].updatedAt == EvidenceTime(revisions[id]))
    && (forall id | id in done ::
          id in revisions && revisions[id].key in authority && authority[revisions[id].key].revisionId == id)
  }

  lemma FilledStart(revisions: map<Id, Revision>, before: map<Key, AuthorityRow>)
    requires RowsConsistent(Db(revisions, before))
    ensures Filled(revisions, before, before, {})
  {
  }

  // A row already holding the key would name another approved revision with this key.
  lemma NoConflict(revisions: map<Id, Revision>, before: map<Key, AuthorityRow>,
                   authority: map<Key, AuthorityRow>, done: set<Id>, id: Id)
    requires !Duplicates(revisions) && Filled(revisions, before, authority, done)
    requires id in ApprovedIds(revisions) && id !in done && id !in ReferencedIds(before)
    ensures revisions[id].key !in authority
  {
  }

  lemma InsertExtends(revisions: map<Id, Revision>, before: map<Key, AuthorityRow>,
                      authority: map<Key, AuthorityRow>, done: set<Id>, id: Id, row: AuthorityRow)
    requires Filled(revisions, before, authority, done)
    requires id in ApprovedIds(revisions) && revisions[id].key !in authority
    requires row == AuthorityRow(id, EvidenceTime(revisions[id]))
    ensures Filled(revisions, before, authority[revisions[id].key := row], done + {id})
  {
  }

  lemma SkipExtends(revisions: map<Id, Revision>, before: map<Key, AuthorityRow>,
                    authority: map<Key, AuthorityRow>, done: set<Id>, id: Id)
    requires Filled(revisions, before, authority, done)
    requires id in ReferencedIds(before)
    ensures Filled(revisions, before, authority, done + {id})
  {
  }

  // Main result: the two conditions the backfill checks are together the right ones: they hold exactly
  // when some completion of the existing authority rows corresponds to the approved revisions.
  lemma CompletableExactly(db: Db)
    ensures !Duplicates(db.revisions) && RowsConsistent(db) <==>
            exists authority :: Completes(db.authority, authority) && Corresponds(Db(db.revisions, authority))
  {
    if exists authority :: Completes(db.authority, authority) && Corresponds(Db(db.revisions, authority)) {
      var authority :| Completes(db.authority, authority) && Corresponds(Db(db.revisions, authority));
      CompletionMeansConsistent(db, authority);
    }
    if !Duplicates(db.revisions) && RowsConsistent(db) {
      var authority := Completion(db, ApprovedIds(db.revisions));
      assert Completes(db.authority, authority) && Corresponds(Db(db.revisions, authority));
    }
  }

  predicate Completes(before: map<Key, AuthorityRow>, after: map<Key, AuthorityRow>) {
    forall key | key in before :: key in after && after[key] == before[key]
  }

  lemma CompletionMeansConsistent(db: Db, authority: map<Key, AuthorityRow>)
    requires Completes(db.authority, authority) && Corresponds(Db(db.revisions, authority))
    ensures !Duplicates(db.revisions) && RowsConsistent(db)
  {
    forall key | key in db.authority ensures RowConsistent(db.revisions, key, db.authority[key]) {
      assert authority[key] == db.authority[key];
    }
  }

  // The completion the backfill builds, one approved revision at a time.
  lemma {:induction false} Completion(db: Db, ids: set<Id>) returns (authority: map<Key, AuthorityRow>)
    requires !Duplicates(db.revisions) && RowsConsistent(db) && ids <= ApprovedIds(db.revisions)
    ensures Completes(db.authority, authority) && RowsConsistent(Db(db.revisions, authority))
    ensures forall id | id in ids ::
              db.revisions[id].key in authority && authority[db.revisions[id].key].revisionId == id
    decreases |ids|
  {
    if ids == {} {
      return db.authority;
    }
    var id :| id in ids;
    authority := Completion(db, ids - {id});
    var key := db.revisions[id].key;
    if key in authority {
      assert RowConsistent(db.revisions, key, authority[key]);
      assert authority[key].revisionId in db.revisions && id in db.revisions;
    } else {
      authority := authority[key := AuthorityRow(id, EvidenceTime(db.revisions[id]))];
    }
  }

  class Migration {
    var revisions: map<Id, Revision>
    var authority: map<Key, AuthorityRow>

    ghost function Contents(): Db
      reads this
    {
      Db(revisions, authority)
    }

    constructor (db: Db)
      ensures Contents() == db
    {
      revisions, authority := db.revisions, db.authority;
    }

    // UPDATE ... SET sealed_at = COALESCE(approved_at, created_at) WHERE status != 'draft'
    method SealNonDrafts()
      modifies this`revisions
      ensures revisions == map id | id in old(revisions) :: SealRow(old(revisions)[id])
      ensures forall id | id in revisions ::
                var row := old(revisions)[id];
                revisions[id] == if row.status == Draft then row
                                 else if row.approvedAt != None then row.(sealedAt := row.approvedAt)
                                 else row.(sealedAt := Some(row.createdAt))
    {
      var todo := revisions.Keys;
      while todo != {}
        invariant todo <= old(revisions).Keys == revisions.Keys
        invariant forall id | id in revisions ::
                    revisions[id] == if id in todo then old(revisions)[id] else SealRow(old(revisions)[id])
        decreases |todo|
      {
        var id :| id in todo;
        if !revisions[id].status.Draft? {
          revisions := revisions[id := revisions[id].(sealedAt := Some(EvidenceTime(revisions[id])))];
        }
        todo := todo - {id};
      }
    }

    // Step 4: the first bad existing row, if any, in the order the rows come back.
    method CheckExistingRows() returns (failure: Option<Failure>)
      ensures failure.None? <==> RowsConsistent(Contents())
      ensures failure.Some? ==> exists key | key in authority :: HasFault(revisions, key, authority[key], failure.value)
    {
      var todo := authority.Keys;
      while todo != {}
        invariant todo <= authority.Keys
        invariant forall key | key in authority && key !in todo :: RowConsistent(revisions, key, authority[key])
        decreases |todo|
      {
        var key :| key in todo;
        var id := authority[key].revisionId;
        if id !in revisions {
          assert !RowConsistent(revisions, key, authority[key]);
          return Some(MissingRevision);
        }
        if !revisions[id].status.Approved? {
          assert !RowConsistent(revisions, key, authority[key]);
          return Some(NotApproved);
        }
        if revisions[id].key.weightSetId != key.weightSetId {
          assert !RowConsistent(revisions, key, authority[key]);
          return Some(WrongWeightSet);
        }
        if revisions[id].key.code != key.code {
          assert !RowConsistent(revisions, key, authority[key]);
          return Some(WrongCode);
        }
        todo := todo - {key};
      }
      return None;
    }

    // One INSERT, unless an existing row already references the revision.
    method InsertMissingRow(id: Id, existing: set<Id>, ghost before: map<Key, AuthorityRow>, ghost done: set<Id>)
      returns (failure: Option<Failure>)
      requires !Duplicates(revisions) && Filled(revisions, before, authority, done)
      requires existing == ReferencedIds(before) && id in ApprovedIds(revisions) && id !in done
      modifies this`authority
      ensures failure.None?
      ensures Filled(revisions, before, authority, done + {id})
    {
      var row := revisions[id];
      failure := None;
      if id !in existing {
        NoConflict(revisions, before, authority, done, id);
        InsertExtends(revisions, before, authority, done, id, AuthorityRow(id, EvidenceTime(row)));
        if row.key in authority {
          failure := Some(InsertConflict);
        } else {
          authority := authority[row.key := AuthorityRow(id, EvidenceTime(row))];
        }
      } else {
        SkipExtends(revisions, before, authority, done, id);
      }
    }

    // Step 5: every approved revision in turn, stopping at the first failed INSERT.
    method InsertMissingRows() returns (failure: Option<Failure>)
      requires !Duplicates(revisions) && RowsConsistent(Contents())
      modifies this`authority
      ensures failure.None?
      ensures Filled(revisions, old(authority), authority, ApprovedIds(revisions))
    {
      ghost var before := authority;
      var existing := ReferencedIds(authority);
      var ids := ApprovedIds(revisions);
      var todo := ids;
      failure := None;
      FilledStart(revisions, authority);
      assert ids - todo == {};
      while todo != {} && failure.None?
        invariant todo <= ids && failure.None?
        invariant Filled(revisions, before, authority, ids - todo)
        decreases |todo|
      {
        var id :| id in todo;
        assert ids - (todo - {id}) == ids - todo + {id};
        failure := InsertMissingRow(id, existing, before, ids - todo);
        todo := todo - {id};
      }
      assert ids - todo == ids;
    }

    // Main result: the backfill either raises, leaving the tables as they were, or leaves the
    // authority table equal to the approved set; it raises exactly when two approved revisions
    // share a key or an existing authority row is inconsistent.  The insert-conflict, count and
    // mismatch failures never occur, and an already corresponding table is left as it is.
    method BackfillAuthority() returns (failure: Option<Failure>)
      modifies this`authority
      ensures failure.None? <==> !Duplicates(revisions) && RowsConsistent(old(Contents()))
      ensures failure.Some? ==> authority == old(authority)
      ensures failure.Some? ==> failure.value !in {InsertConflict, CountMismatch, InvalidReference}
      ensures failure.None? ==> Corresponds(Contents())
      ensures failure.None? ==>
                forall key | key in old(authority) :: key in authority && authority[key] == old(authority)[key]
      ensures failure.None? ==>
                forall key | key in authority && key !in old(authority) ::
                  var row := revisions[authority[key].revisionId];
                  authority[key].updatedAt == if row.approvedAt != None then row.approvedAt.value else row.createdAt
      ensures old(Corresponds(Contents())) ==> failure.None? && authority == old(authority)
    {
      if Duplicates(revisions) {
        return Some(DuplicateApproved);
      }
      failure := CheckExistingRows();
      if failure.Some? {
        return;
      }
      var approvedCount := |ApprovedIds(revisions)|;
      failure := InsertMissingRows();
      SameCount(revisions, authority, ApprovedIds(revisions));
      if |authority| != approvedCount {
        failure := Some(CountMismatch);
      } else if exists key | key in authority ::
                  authority[key].revisionId in revisions && !RowConsistent(revisions, key, authority[key]) {
        failure := Some(InvalidReference);
      }
      if old(Corresponds(Contents())) {
        forall key | key in authority
          ensures key in old(authority)
        {
          assert RowConsistent(revisions, key, authority[key]);
        }
      }
    }

    // The two upgrades in order: e10f2c4d84e5 seals, 451311827adf fills the authority table.
    // From any tables, success establishes the invariant the triggers then keep.
    method SealThenBackfill() returns (failure: Option<Failure>)
      modifies this
      ensures failure.None? <==> !Duplicates(old(revisions)) && RowsConsistent(old(Contents()))
      ensures failure.None? ==> Inv(Contents())
      ensures forall id | id in revisions && !revisions[id].status.Draft? :: revisions[id].sealedAt.Some?
    {
      SealNonDrafts();
      assert Duplicates(revisions) <==> Duplicates(old(revisions)) by {
        SealingKeepsDuplicates(old(revisions), revisions);
      }
      assert RowsConsistent(Contents()) <==> RowsConsistent(old(Contents())) by {
        SealingKeepsConsistency(old(Contents()), revisions);
      }
      failure := BackfillAuthority();
    }

    // DELETE FROM the authority table WHERE its revision is approved.  The PostgreSQL drop routine
    // leaves the delete guard in place; SQLite has dropped every guard by then.
    method DowngradeDelete(dialect: Dialect) returns (ok: bool)
      modifies this`authority
      ensures Contents() == DowngradeDeleted(dialect, old(Contents())).Or(old(Contents()))
      ensures ok <==> DowngradeDeleted(dialect, old(Contents())).Committed?
    {
      var saved := authority;
      var selected := Selected(Db(revisions, authority));
      var todo := selected;
      while todo != {}
        invariant todo <= selected
        invariant authority == old(authority) - (selected - todo)
        invariant dialect.Postgres? ==> todo == selected
        decreases |todo|
      {
        var key :| key in todo;
        if dialect.Postgres? && revisions[authority[key].revisionId].status.Approved? {
          authority := saved;
          return false;
        }
        authority := authority - {key};
        todo := todo - {key};
      }
      return true;
    }
  }

  lemma SealingKeepsDuplicates(before: map<Id, Revision>, after: map<Id, Revision>)
    requires after == map id | id in before :: SealRow(before[id])
    ensures Duplicates(after) <==> Duplicates(before)
  {
    forall a, b | a in before && b in before
      ensures after[a].status == before[a].status && after[a].key == before[a].key && after[b].key == before[b].key
    {
    }
    if Duplicates(before) {
      var a, b :| a in before && b in before && a != b && before[a].status.Approved? &&
                  before[b].status.Approved? && before[a].key == before[b].key;
      assert a in after && b in after && after[a].key == after[b].key;
    }
    if Duplicates(after) {
      var a, b :| a in after && b in after && a != b && after[a].status.Approved? &&
                  after[b].status.Approved? && after[a].key == after[b].key;
      assert a in before && b in before && before[a].key == before[b].key;
    }
  }

  lemma SealingKeepsConsistency(db: Db, after: map<Id, Revision>)
    requires after == map id | id in db.revisions :: SealRow(db.revisions[id])
    ensures RowsConsistent(Db(after, db.authority)) <==> RowsConsistent(db)
  {
  }

  predicate SelectedForDelete(db: Db, key: Key) {
    && key in db.authority
    && db.authority[key].revisionId in db.revisions
    && db.revisions[db.authority[key].revisionId].status.Approved?
  }

  function Selected(db: Db): set<Key> {
    set key | key in db.authority && SelectedForDelete(db, key)
  }

  function DowngradeDeleted(dialect: Dialect, db: Db): Outcome {
    if dialect.Postgres? && Selected(db) != {} then Aborted
    else Committed(Db(db.revisions, db.authority - Selected(db)))
  }

  // From an invariant state the SQLite downgrade always empties the authority table, while the
  // PostgreSQL downgrade fails exactly when some revision is approved.
  lemma DowngradeOutcome(db: Db)
    requires Inv(db)
    ensures DowngradeDeleted(Sqlite, db) == Committed(Db(db.revisions, map[]))
    ensures DowngradeDeleted(Postgres, db) == Aborted <==> ApprovedIds(db.revisions) != {}
  {
    var selected := Selected(db);
    assert selected == db.authority.Keys;
    assert db.authority - selected == map[];
    if ApprovedIds(db.revisions) != {} {
      var id :| id in ApprovedIds(db.revisions);
      assert db.revisions[id].key in selected;
    }
    if selected != {} {
      var key :| key in selected;
      assert db.authority[key].revisionId in ApprovedIds(db.revisions);
    }
  }

  // Downgrading on SQLite and upgrading again restores every claim, up to its timestamp.
  method DowngradeThenBackfill(migration: Migration)
    requires Inv(migration.Contents())
    modifies migration
    ensures migration.revisions == old(migration.revisions)
    ensures migration.authority.Keys == old(migration.authority).Keys
    ensures forall key | key in migration.authority ::
              migration.authority[key].revisionId == old(migration.authority)[key].revisionId
  {
    DowngradeOutcome(migration.Contents());
    var _ := migration.DowngradeDelete(Sqlite);
    var _ := migration.BackfillAuthority();
    assert Corresponds(migration.Contents());
  }

  // Main result: the backfill alone does not look at seals.  After it succeeds, the invariant holds
  // and every later run in either dialect keeps the correspondence exactly when every approved row
  // was sealed before, which an approved row inserted directly after e10f2c4d84e5 is not.
  method BackfillEstablishes(migration: Migration) returns (failure: Option<Failure>)
    modifies migration
    ensures migration.revisions == old(migration.revisions)
    ensures failure.None? ==> (Inv(migration.Contents()) <==> ApprovedAreSealed(old(migration.revisions)))
    ensures failure.None? && ChecksHold(old(migration.revisions)) ==>
              forall dialect ::
                CorrespondsForever(dialect, migration.Contents()) <==> ApprovedAreSealed(old(migration.revisions))
  {
    failure := migration.BackfillAuthority();
    if failure.None? && ChecksHold(migration.revisions) {
      forall dialect
        ensures CorrespondsForever(dialect, migration.Contents()) <==> ApprovedAreSealed(migration.revisions)
      {
        SealsDecideCorrespondence(dialect, migration.Contents());
      }
    }
  }
}
