/** The trigger cascades as a database engine runs them: tables updated in place, nested statements
    firing triggers of their own, and the whole statement undone when any of them aborts. */
module WeightDatabase {
  import opened Wrappers
  import opened WeightTables
  import opened WeightTriggers
  import opened WeightTheorems

  class Database {
    const dialect: Dialect
    var revisions: map<Id, Revision>
    var authority: map<Key, AuthorityRow>

    ghost function Contents(): Db
      reads this
    {
      Db(revisions, authority)
    }

    constructor (dialect: Dialect)
      ensures this.dialect == dialect && Contents() == Db(map[], map[]) && Inv(Contents())
    {
      this.dialect := dialect;
      revisions, authority := map[], map[];
    }

    // An aborted row operation may leave tables half written; Execute undoes it.
    method InsertAuthorityRow(key: Key, row: AuthorityRow) returns (ok: bool)
      modifies this`authority
      ensures ok <==> GuardedInsertAuthority(old(Contents()), key, row).Committed?
      ensures ok ==> Contents() == GuardedInsertAuthority(old(Contents()), key, row).db
    {
      if !(row.revisionId in revisions && revisions[row.revisionId].status.Approved? &&
         revisions[row.revisionId].key == key) {
        return false;
      }
      if key in authority {
        return false;
      }
      authority := authority[key := row];
      return true;
    }

    method DeleteAuthorityRow(key: Key) returns (ok: bool)
      modifies this`authority
      ensures ok <==> GuardedDeleteAuthority(old(Contents()), key).Committed?
      ensures ok ==> Contents() == GuardedDeleteAuthority(old(Contents()), key).db
    {
      if key in authority {
        var id := authority[key].revisionId;
        if id in revisions && revisions[id].status.Approved? {
          return false;
        }
        authority := authority - {key};
      }
      return true;
    }

    method UpdateRowSqlite(id: Id, after: Revision, now: Timestamp) returns (ok: bool)
      requires id in revisions
      modifies this
      ensures ok <==> SqliteUpdate(old(Contents()), id, after, now).Committed?
      ensures ok ==> Contents() == SqliteUpdate(old(Contents()), id, after, now).db
      decreases if Approves(revisions[id], after) then 1 else 0
    {
      var before := revisions[id];
      if ImmutabilityAborts(before, after) || TransitionAborts(before, after) {
        return false;
      }
      if Approves(before, after) && !ApprovedFree(revisions, id, after.key) {
        return false;
      }
      if !RowChecks(after) || !CodeRevisionFree(revisions, id, after) {
        return false;
      }
      revisions := revisions[id := after];
      if Approves(before, after) {
        var sealed := revisions[id].(sealedAt := Some(now));
        ok := UpdateRowSqlite(id, sealed, now);
        if ok {
          ok := InsertAuthorityRow(after.key, AuthorityRow(id, now));
        }
      } else if Releases(before, after) {
        ok := DeleteAuthorityRow(before.key);
      } else {
        ok := true;
      }
    }

    method UpdateRowPostgres(id: Id, after: Revision, now: Timestamp) returns (ok: bool)
      requires id in revisions
      modifies this
      ensures ok <==> PostgresUpdate(old(Contents()), id, after, now).Committed?
      ensures ok ==> Contents() == PostgresUpdate(old(Contents()), id, after, now).db
    {
      var before, row := revisions[id], after;
      if ImmutabilityAborts(before, row) {
        return false;
      }
      if Approves(before, row) {
        row := row.(sealedAt := Some(now));
      }
      if TransitionAborts(before, row) || !RowChecks(row) || !CodeRevisionFree(revisions, id, row) {
        return false;
      }
      if row.status.Approved? && !ApprovedFree(revisions, id, row.key) {
        return false;
      }
      revisions := revisions[id := row];
      ok := true;
      if Approves(before, row) {
        ok := InsertAuthorityRow(row.key, AuthorityRow(id, now));
      } else if Releases(before, row) {
        ok := DeleteAuthorityRow(before.key);
      }
    }

    // One statement: committed as a whole or undone as a whole.
    method Execute(statement: Statement, now: Timestamp) returns (ok: bool)
      modifies this
      ensures ok <==> Step(dialect, old(Contents()), statement, now).Committed?
      ensures Contents() == Step(dialect, old(Contents()), statement, now).Or(old(Contents()))
      ensures old(Inv(Contents())) ==> Inv(Contents())
    {
      var savedRevisions, savedAuthority := revisions, authority;
      ok := true;
      match statement {
        case InsertRevision(id, row) =>
          ok := !row.status.Approved? && RowChecks(row) && id !in revisions && CodeRevisionFree(revisions, id, row);
          if ok {
            revisions := revisions[id := row];
          }
        case UpdateRevision(id, row) =>
          if id in revisions {
            match dialect {
              case Sqlite => ok := UpdateRowSqlite(id, row, now);
              case Postgres => ok := UpdateRowPostgres(id, row, now);
            }
          }
        case DeleteRevision(id) =>
          if id in revisions {
            ok := !Referenced(authority, id);
            if ok {
              revisions := revisions - {id};
            }
          }
        case InsertAuthority(key, row) =>
          ok := InsertAuthorityRow(key, row);
        case UpdateAuthority(key, _, _) =>
          ok := key !in authority;
        case DeleteAuthority(key) =>
          ok := DeleteAuthorityRow(key);
      }
      if !ok {
        revisions, authority := savedRevisions, savedAuthority;
      }
      if old(Inv(Contents())) {
        StepKeepsInv(dialect, old(Contents()), statement, now);
      }
    }
  }
}
