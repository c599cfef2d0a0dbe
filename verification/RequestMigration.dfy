/** The table migration that separates requested from resolved request identity, and its way back. */
module RequestMigration {
  import opened Wrappers

  type Id = string
  type Timestamp = int

  datatype Status = Pending | PreflightRejected | Accepted | Unlisted(text: string)

  // The columns both schemas have under the same name.
  datatype Shared = Shared(
    fingerprint: string,
    actor: string,
    correlationId: string,
    status: Status,
    resolvedIdentityId: Option<Id>,
    resolvedAttemptId: Option<Id>,
    failureCode: Option<string>,
    failureField: Option<string>,
    failureDetails: Option<string>,
    createdAt: Timestamp,
    completedAt: Option<Timestamp>)

  datatype OldRow = OldRow(projectId: Id, projectVersionId: Id, shared: Shared)

  datatype NewRow = NewRow(
    requestedProjectId: Id,
    requestedProjectVersionId: Id,
    resolvedProjectId: Option<Id>,
    resolvedProjectVersionId: Option<Id>,
    shared: Shared)

  // The tables foreign keys point at: projects, and each version's project.
  datatype References = References(projects: set<Id>, versions: map<Id, Id>)

  // ----- CHECK predicates -----

  predicate NoFailure(s: Shared) {
    s.failureCode.None? && s.failureField.None? && s.failureDetails.None?
  }

  predicate FullFailure(s: Shared) {
    s.failureCode.Some? && s.failureField.Some? && s.failureDetails.Some?
  }

  predicate OldCheck(r: OldRow) {
    var s := r.shared;
    || (s.status.Pending? && s.resolvedIdentityId.None? && s.resolvedAttemptId.None? && NoFailure(s)
        && s.completedAt.None?)
    || (s.status.PreflightRejected? && s.resolvedIdentityId.None? && s.resolvedAttemptId.None? && FullFailure(s)
        && s.completedAt.Some?)
    || (s.status.Accepted? && s.resolvedIdentityId.Some? && s.resolvedAttemptId.Some? && NoFailure(s)
        && s.completedAt.Some?)
  }

  predicate NewCheck(r: NewRow) {
    var s := r.shared;
    || (s.status.Pending? && r.resolvedProjectId.None? && r.resolvedProjectVersionId.None?
        && s.resolvedIdentityId.None? && s.resolvedAttemptId.None? && NoFailure(s) && s.completedAt.None?)
    || (s.status.PreflightRejected? && s.resolvedIdentityId.None? && s.resolvedAttemptId.None? && FullFailure(s)
        && s.completedAt.Some?)
    || (s.status.Accepted? && r.resolvedProjectId.Some? && r.resolvedProjectVersionId.Some?
        && s.resolvedIdentityId.Some? && s.resolvedAttemptId.Some? && NoFailure(s) && s.completedAt.Some?)
  }

  // The CHECKs column by column: an attempt and identity exactly when ACCEPTED, a failure exactly when
  // PREFLIGHT_REJECTED, a completion time exactly when no longer PENDING.
  predicate SharedFollowStatus(s: Shared) {
    && s.status in {Pending, PreflightRejected, Accepted}
    && (s.resolvedIdentityId != None <==> s.status == Accepted)
    && (s.resolvedAttemptId != None <==> s.status == Accepted)
    && (s.failureCode != None <==> s.status == PreflightRejected)
    && (s.failureField != None <==> s.status == PreflightRejected)
    && (s.failureDetails != None <==> s.status == PreflightRejected)
    && (s.completedAt != None <==> s.status != Pending)
  }

  lemma ChecksByColumn(before: OldRow, after: NewRow)
    ensures OldCheck(before) <==> SharedFollowStatus(before.shared)
    ensures NewCheck(after) <==>
            && SharedFollowStatus(after.shared)
            && (after.shared.status == Accepted ==>
                  after.resolvedProjectId != None && after.resolvedProjectVersionId != None)
            && (after.shared.status == Pending ==>
                  after.resolvedProjectId == None && after.resolvedProjectVersionId == None)
  {
  }

  predicate OldForeignKeys(r: OldRow, refs: References) {
    r.projectId in refs.projects && r.projectVersionId in refs.versions
  }

  predicate NewForeignKeys(r: NewRow, refs: References) {
    && (r.resolvedProjectId.Some? ==> r.resolvedProjectId.value in refs.projects)
    && (r.resolvedProjectVersionId.Some? ==> r.resolvedProjectVersionId.value in refs.versions)
  }

  // ----- Rows -----

  function UpgradeRow(r: OldRow): NewRow {
    NewRow(r.projectId, r.projectVersionId, None, None, r.shared)
  }

  function DowngradeRow(r: NewRow): OldRow {
    OldRow(r.requestedProjectId, r.requestedProjectVersionId, r.shared)
  }

  // The requested project and version exist and belong together.
  predicate Resolvable(r: NewRow, refs: References) {
    && r.requestedProjectId in refs.projects
    && r.requestedProjectVersionId in refs.versions
    && refs.versions[r.requestedProjectVersionId] == r.requestedProjectId
  }

  // ----- Tables -----

  datatype Table = Old(oldRows: map<Id, OldRow>) | New(newRows: map<Id, NewRow>)

  predicate Valid(t: Table, refs: References) {
    match t
    case Old(rows) => forall id | id in rows :: OldCheck(rows[id]) && OldForeignKeys(rows[id], refs)
    case New(rows) => forall id | id in rows :: NewCheck(rows[id]) && NewForeignKeys(rows[id], refs)
  }

  function UpgradeRows(rows: map<Id, OldRow>): map<Id, NewRow> {
    map id | id in rows :: UpgradeRow(rows[id])
  }

  function DowngradeRows(rows: map<Id, NewRow>): map<Id, OldRow> {
    map id | id in rows :: DowngradeRow(rows[id])
  }

  predicate SomeAccepted(rows: map<Id, OldRow>) {
    exists id | id in rows :: rows[id].shared.status.Accepted?
  }

  predicate AllResolvable(rows: map<Id, NewRow>, refs: References) {
    forall id | id in rows :: Resolvable(rows[id], refs)
  }

  lemma UpgradedRowCheck(r: OldRow)
    requires OldCheck(r)
    ensures NewCheck(UpgradeRow(r)) <==> !r.shared.status.Accepted?
  {
  }

  // Main result: the new CHECK implies the old one once the new columns are dropped.
  lemma NewCheckImpliesOld(r: NewRow)
    requires NewCheck(r)
    ensures OldCheck(DowngradeRow(r))
  {
  }

  class Migration {
    const refs: References
    var requests: Table

    constructor (requests: Table, refs: References)
      ensures this.requests == requests && this.refs == refs
    {
      this.requests := requests;
      this.refs := refs;
    }

    // Main result: from a valid table the upgrade succeeds exactly when no request is ACCEPTED, and
    // then copies every row with empty resolved columns; otherwise nothing changes.
    method Upgrade() returns (ok: bool)
      requires requests.Old? && Valid(requests, refs)
      modifies this
      ensures ok <==> !SomeAccepted(old(requests).oldRows)
      ensures requests == if ok then New(UpgradeRows(old(requests).oldRows)) else old(requests)
      ensures Valid(requests, refs)
    {
      var rows := requests.oldRows;
      var copy: map<Id, NewRow> := map[];
      var todo := rows.Keys;
      while todo != {}
        invariant todo <= rows.Keys && copy.Keys == rows.Keys - todo
        invariant forall id | id in copy :: copy[id] == UpgradeRow(rows[id]) && NewCheck(copy[id])
        decreases |todo|
      {
        var id :| id in todo;
        var row := NewRow(rows[id].projectId, rows[id].projectVersionId, None, None, rows[id].shared);
        if !NewCheck(row) {
          return false;
        }
        copy := copy[id := row];
        todo := todo - {id};
      }
      assert forall id | id in rows :: NewCheck(copy[id]) && !rows[id].shared.status.Accepted?;
      assert copy == UpgradeRows(rows);
      requests := New(copy);
      return true;
    }

    // The three counts before any change; zero rows are counted exactly when every request is
    // resolvable.
    method GuardDowngrade() returns (unresolvedProject: nat, unresolvedVersion: nat, mismatch: nat)
      requires requests.New?
      ensures unresolvedProject == 0 && unresolvedVersion == 0 && mismatch == 0 <==>
              AllResolvable(requests.newRows, refs)
    {
      var rows := requests.newRows;
      unresolvedProject, unresolvedVersion, mismatch := 0, 0, 0;
      var todo := rows.Keys;
      while todo != {}
        invariant todo <= rows.Keys
        invariant unresolvedProject == 0 && unresolvedVersion == 0 && mismatch == 0 <==>
                  forall id | id in rows && id !in todo :: Resolvable(rows[id], refs)
        decreases |todo|
      {
        var id :| id in todo;
        var row := rows[id];
        if row.requestedProjectId !in refs.projects {
          unresolvedProject := unresolvedProject + 1;
        }
        if row.requestedProjectVersionId !in refs.versions {
          unresolvedVersion := unresolvedVersion + 1;
        } else if refs.versions[row.requestedProjectVersionId] != row.requestedProjectId {
          mismatch := mismatch + 1;
        }
        todo := todo - {id};
        assert forall other | other in rows && other !in todo :: other == id || other !in todo + {id};
      }
    }

    // Main result: from a valid table the downgrade succeeds exactly when the guard passes; the old
    // CHECK and foreign keys never fail afterwards.
    method Downgrade() returns (ok: bool)
      requires requests.New? && Valid(requests, refs)
      modifies this
      ensures ok <==> AllResolvable(old(requests).newRows, refs)
      ensures requests == if ok then Old(DowngradeRows(old(requests).newRows)) else old(requests)
      ensures Valid(requests, refs)
    {
      var unresolvedProject, unresolvedVersion, mismatch := GuardDowngrade();
      if unresolvedProject != 0 || unresolvedVersion != 0 || mismatch != 0 {
        return false;
      }
      var rows := requests.newRows;
      var copy: map<Id, OldRow> := map[];
      var todo := rows.Keys;
      while todo != {}
        invariant todo <= rows.Keys && copy.Keys == rows.Keys - todo
        invariant forall id | id in copy ::
                    copy[id] == DowngradeRow(rows[id]) && OldCheck(copy[id]) && OldForeignKeys(copy[id], refs)
        decreases |todo|
      {
        var id :| id in todo;
        NewCheckImpliesOld(rows[id]);
        copy := copy[id := OldRow(rows[id].requestedProjectId, rows[id].requestedProjectVersionId, rows[id].shared)];
        todo := todo - {id};
      }
      assert copy == DowngradeRows(rows);
      requests := Old(copy);
      return true;
    }

    // Main result: whenever both succeed, downgrade after upgrade is the identity on every request;
    // from a valid table both succeed exactly when no request is ACCEPTED and every version belongs
    // to its request's project, which the old foreign keys do not enforce.
    method RoundTrip() returns (ok: bool)
      requires requests.Old? && Valid(requests, refs)
      modifies this
      ensures ok ==> requests == old(requests)
      ensures ok <==>
              !SomeAccepted(old(requests).oldRows) &&
              forall id | id in old(requests).oldRows ::
                refs.versions[old(requests).oldRows[id].projectVersionId] == old(requests).oldRows[id].projectId
    {
      ghost var before := requests.oldRows;
      var up := Upgrade();
      if !up {
        return false;
      }
      ok := Downgrade();
      assert forall id | id in before :: UpgradeRows(before)[id] == UpgradeRow(before[id]);
      assert DowngradeRows(UpgradeRows(before)) == before;
    }
  }

  // The other direction loses the resolved columns: it is the identity exactly when they are empty.
  lemma DowngradeThenUpgrade(rows: map<Id, NewRow>)
    ensures UpgradeRows(DowngradeRows(rows)) == rows <==>
            forall id | id in rows :: rows[id].resolvedProjectId.None? && rows[id].resolvedProjectVersionId.None?
  {
  }
}
