/** The two weight-revision tables and the constraints both database dialects put on them:
    primary keys, the status and approval-evidence CHECKs, the unique (code, revision) key,
    and the foreign key from authority rows to revisions. */
module WeightTables {
  import opened Wrappers

  type Id = string
  type Timestamp = int  // opaque instants

  datatype Status = Draft | Approved | Superseded | Revoked | Unlisted(text: string)

  datatype Key = Key(weightSetId: string, code: string)

  datatype Revision = Revision(
    key: Key,
    revision: int,
    status: Status,
    content: string,
    contentHash: string,
    generatorVersion: string,
    approvedAt: Option<Timestamp>,
    approvedBy: Option<string>,
    createdAt: Timestamp,
    sealedAt: Option<Timestamp>)

  datatype AuthorityRow = AuthorityRow(revisionId: Id, updatedAt: Timestamp)

  datatype Db = Db(revisions: map<Id, Revision>, authority: map<Key, AuthorityRow>)

  // One SQL statement on one row.  An update carries the row as the statement would write it.
  datatype Statement =
    | InsertRevision(id: Id, row: Revision)
    | UpdateRevision(id: Id, row: Revision)
    | DeleteRevision(id: Id)
    | InsertAuthority(key: Key, authority: AuthorityRow)
    | UpdateAuthority(key: Key, newKey: Key, authority: AuthorityRow)
    | DeleteAuthority(key: Key)

  // A statement either commits a new state or is aborted by a constraint or a trigger.
  datatype Outcome = Committed(db: Db) | Aborted {
    function Or(before: Db): Db {
      if Committed? then db else before
    }
  }

  predicate RowChecks(row: Revision) {
    && !row.status.Unlisted?
    && (row.status.Approved? ==>
          row.approvedAt.Some? && row.approvedBy.Some? && row.approvedBy.value != "")
  }

  predicate CodeRevisionFree(revisions: map<Id, Revision>, id: Id, row: Revision) {
    forall other | other in revisions && other != id ::
      !(revisions[other].key.code == row.key.code && revisions[other].revision == row.revision)
  }

  // No revision other than `id` is approved under `key`.
  predicate ApprovedFree(revisions: map<Id, Revision>, id: Id, key: Key) {
    forall other | other in revisions && other != id ::
      !(revisions[other].status.Approved? && revisions[other].key == key)
  }

  predicate Referenced(authority: map<Key, AuthorityRow>, id: Id) {
    exists key | key in authority :: authority[key].revisionId == id
  }

  // The columns the immutability trigger freezes once a row is sealed.
  predicate FrozenColumnsEqual(a: Revision, b: Revision) {
    && a.content == b.content
    && a.contentHash == b.contentHash
    && a.key.code == b.key.code
    && a.revision == b.revision
    && a.key.weightSetId == b.key.weightSetId
    && a.generatorVersion == b.generatorVersion
    && a.approvedAt == b.approvedAt
    && a.approvedBy == b.approvedBy
    && a.sealedAt == b.sealedAt
  }

  predicate LegalTransition(from: Status, to: Status) {
    || (from.Draft? && to.Approved?)
    || (from.Approved? && to.Superseded?)
    || (from.Approved? && to.Revoked?)
  }

  // The update approves a draft / takes an approved revision out of force.
  predicate Approves(before: Revision, after: Revision) {
    before.status.Draft? && after.status.Approved?
  }

  predicate Releases(before: Revision, after: Revision) {
    before.status.Approved? && (after.status.Superseded? || after.status.Revoked?)
  }

  // Authority rows are exactly the map (weight set, code) -> approved revision id.
  ghost predicate Corresponds(db: Db) {
    && (forall key | key in db.authority ::
          var id := db.authority[key].revisionId;
          id in db.revisions && db.revisions[id].status.Approved? && db.revisions[id].key == key)
    && (forall id | id in db.revisions && db.revisions[id].status.Approved? ::
          var key := db.revisions[id].key;
          key in db.authority && db.authority[key].revisionId == id)
  }

  ghost predicate ApprovedAreSealed(revisions: map<Id, Revision>) {
    forall id | id in revisions && revisions[id].status.Approved? :: revisions[id].sealedAt.Some?
  }

  ghost predicate DraftsAreUnsealed(revisions: map<Id, Revision>) {
    forall id | id in revisions && revisions[id].status.Draft? :: revisions[id].sealedAt.None?
  }

  ghost predicate Inv(db: Db) {
    Corresponds(db) && ApprovedAreSealed(db.revisions)
  }
}
