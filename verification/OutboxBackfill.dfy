/** The migration loop that gives pre-existing outbox rows real payload and envelope hashes. */
module OutboxBackfill {
  import opened Wrappers
  import opened CanonicalJson
  import opened Envelope
  import opened OutboxTables
  import opened OutboxTheorems

  datatype Failure = NotAMapping | Unhashable(rejection: Rejection)

  const LEGACY_ACTOR := "legacy-system"

  // The rows the loop selects: those still carrying the column default.
  predicate Legacy(row: Row) {
    row.envelope.actor == ""
  }

  // The envelope columns as the loop rewrites them.
  function LegacyEnvelope(id: Id, e: Envelope): Envelope {
    e.(actor := LEGACY_ACTOR,
       correlationId := "legacy:" + id,
       eventSchemaVersion := if e.eventSchemaVersion == "" then "1.0" else e.eventSchemaVersion)
  }

  // What the algorithm demands of a legacy row: a dictionary payload that canonicalises, inside an
  // envelope that canonicalises.
  ghost predicate Hashable(iso: DateTime -> string, sha: string -> string, id: Id, row: Row) {
    && Canonical(Outbox, iso, row.envelope.payload).Ok?
    && row.envelope.payload.PyDict?
    && EnvelopeHash(iso, sha, LegacyEnvelope(id, row.envelope)).Ok?
  }

  // A legacy row after the loop: hashes agree, and nothing but the five written columns changed.
  ghost predicate Rewritten(iso: DateTime -> string, sha: string -> string, id: Id, before: Row, after: Row) {
    && after == before.(envelope := LegacyEnvelope(id, before.envelope),
                        payloadHash := after.payloadHash, envelopeHash := after.envelopeHash)
    && HashAgrees(iso, sha, after)
  }

  // What the loop writes and what it leaves alone, column by column.
  lemma RewrittenColumns(iso: DateTime -> string, sha: string -> string, id: Id, before: Row, after: Row)
    requires Rewritten(iso, sha, id, before, after)
    ensures after.envelope.actor == "legacy-system"
    ensures after.envelope.correlationId == "legacy:" + id
    ensures before.envelope.eventSchemaVersion != "" ==>
              after.envelope.eventSchemaVersion == before.envelope.eventSchemaVersion
    ensures before.envelope.eventSchemaVersion == "" ==> after.envelope.eventSchemaVersion == "1.0"
    ensures var (b, a) := (before.envelope, after.envelope);
            && a.eventType == b.eventType && a.aggregateType == b.aggregateType && a.aggregateId == b.aggregateId
            && a.occurredAt == b.occurredAt && a.payload == b.payload && a.eventIdentity == b.eventIdentity
            && a.requestId == b.requestId && a.identityId == b.identityId && a.attemptId == b.attemptId
            && a.calculationRunId == b.calculationRunId && a.sourceBindingId == b.sourceBindingId
    ensures after.status == before.status && after.claimedAt == before.claimedAt && after.claimedBy == before.claimedBy
    ensures after.claimToken == before.claimToken && after.claimExpiresAt == before.claimExpiresAt
    ensures after.publishedAt == before.publishedAt && after.failedAt == before.failedAt
    ensures after.attemptCount == before.attemptCount && after.lastErrorClass == before.lastErrorClass
    ensures !Legacy(after)
  {
  }

  // The payload as the loop's textual SELECT delivers it: the PostgreSQL driver decodes the JSON
  // column, the SQLite driver returns its text.
  function Delivered(dialect: Dialect, dumps: Value -> string, payload: Value): Value {
    match dialect
    case Postgres => payload
    case Sqlite => PyStr(dumps(payload))
  }

  // One turn of the loop.  The row keeps its stored payload; the hashes are of the delivered one.
  function RewriteRow(dialect: Dialect, dumps: Value -> string, iso: DateTime -> string, sha: string -> string,
                      id: Id, row: Row): (r: Result<Row, Failure>)
    ensures dialect.Postgres? ==> (r.Ok? <==> Hashable(iso, sha, id, row))
    ensures dialect.Postgres? && r.Ok? ==> Rewritten(iso, sha, id, row, r.value)
    ensures dialect.Sqlite? ==> r == Err(NotAMapping)
  {
    var payload := Delivered(dialect, dumps, row.envelope.payload);
    match Canonical(Outbox, iso, payload)
    case Err(e) => Err(Unhashable(e))
    case Ok(text) =>
      if !payload.PyDict? then Err(NotAMapping)
      else
        var envelope := LegacyEnvelope(id, row.envelope);
        match EnvelopeHash(iso, sha, envelope.(payload := payload))
        case Err(e) => Err(Unhashable(e))
        case Ok(envelopeHash) =>
          Ok(row.(envelope := envelope, payloadHash := sha(text), envelopeHash := envelopeHash))
  }

  function LegacyIds(outbox: map<Id, Row>): set<Id> {
    set id | id in outbox && Legacy(outbox[id])
  }

  // What the SELECT returns: the legacy rows, each once, in some order.
  ghost predicate Listing(rows: seq<Id>, ids: set<Id>) {
    && (forall id :: id in rows <==> id in ids)
    && (forall i, j | 0 <= i < j < |rows| :: rows[i] != rows[j])
  }

  // The outbox after the loop has gone through the rows, and the failure that stopped it, if any.
  function Backfilled(rewrite: (Id, Row) -> Result<Row, Failure>, outbox: map<Id, Row>, rows: seq<Id>)
    : (map<Id, Row>, Option<Failure>)
    requires forall id | id in rows :: id in outbox
    decreases |rows|
  {
    if rows == [] then (outbox, None)
    else
      match rewrite(rows[0], outbox[rows[0]])
      case Err(e) => (outbox, Some(e))
      case Ok(row) => Backfilled(rewrite, outbox[rows[0] := row], rows[1..])
  }

  // Each listed row is rewritten from its own old columns, whatever the order of the listing.
  lemma {:induction false} RowsAreIndependent(rewrite: (Id, Row) -> Result<Row, Failure>,
                                              outbox: map<Id, Row>, rows: seq<Id>, ids: set<Id>)
    requires Listing(rows, ids) && ids <= outbox.Keys
    ensures var (after, failure) := Backfilled(rewrite, outbox, rows);
            && after.Keys == outbox.Keys
            && (failure.None? <==> forall id | id in ids :: rewrite(id, outbox[id]).Ok?)
            && (failure.None? ==> forall id | id in ids :: rewrite(id, outbox[id]) == Ok(after[id]))
            && (forall id | id in outbox && id !in ids :: after[id] == outbox[id])
    decreases |rows|
  {
    if rows == [] {
      assert ids == {};
    } else {
      var id := rows[0];
      var r := rewrite(id, outbox[id]);
      if r.Ok? {
        var next := outbox[id := r.value];
        assert id !in rows[1..];
        forall other
          ensures other in rows[1..] <==> other in ids - {id}
        {
          assert other in rows <==> other == id || other in rows[1..];
        }
        RowsAreIndependent(rewrite, next, rows[1..], ids - {id});
        assert forall other | other in ids - {id} :: next[other] == outbox[other];
      }
    }
  }

  function Rewriter(dialect: Dialect, dumps: Value -> string, iso: DateTime -> string, sha: string -> string)
    : (Id, Row) -> Result<Row, Failure>
  {
    (id, row) => RewriteRow(dialect, dumps, iso, sha, id, row)
  }

  // Main result: on PostgreSQL the loop succeeds exactly when every legacy row is hashable; then every
  // legacy row's stored hashes are those of its own stored columns.  No other row is touched either way.
  lemma BackfilledRows(dumps: Value -> string, iso: DateTime -> string, sha: string -> string,
                       outbox: map<Id, Row>, rows: seq<Id>)
    requires Listing(rows, LegacyIds(outbox))
    ensures var (after, failure) := Backfilled(Rewriter(Postgres, dumps, iso, sha), outbox, rows);
            && after.Keys == outbox.Keys
            && (failure.None? <==> forall id | id in outbox && Legacy(outbox[id]) :: Hashable(iso, sha, id, outbox[id]))
            && (failure.None? ==>
                  forall id | id in outbox && Legacy(outbox[id]) :: Rewritten(iso, sha, id, outbox[id], after[id]))
            && (forall id | id in outbox && !Legacy(outbox[id]) :: after[id] == outbox[id])
  {
    var rewrite := Rewriter(Postgres, dumps, iso, sha);
    RowsAreIndependent(rewrite, outbox, rows, LegacyIds(outbox));
    forall id | id in outbox && Legacy(outbox[id])
      ensures rewrite(id, outbox[id]) == RewriteRow(Postgres, dumps, iso, sha, id, outbox[id])
    {
    }
  }

  // Main result: on SQLite the loop succeeds exactly when there is no legacy row; otherwise it raises
  // on the first one, whatever its payload, and changes nothing.
  lemma SqliteBackfillRaises(dumps: Value -> string, iso: DateTime -> string, sha: string -> string,
                             outbox: map<Id, Row>, rows: seq<Id>)
    requires Listing(rows, LegacyIds(outbox))
    ensures var (after, failure) := Backfilled(Rewriter(Sqlite, dumps, iso, sha), outbox, rows);
            && after == outbox
            && failure == if LegacyIds(outbox) == {} then None else Some(NotAMapping)
  {
    if rows != [] {
      assert rows[0] in LegacyIds(outbox);
    } else {
      assert LegacyIds(outbox) == {};
    }
  }

  class Migration {
    var outbox: map<Id, Row>

    constructor (outbox: map<Id, Row>)
      ensures this.outbox == outbox
    {
      this.outbox := outbox;
    }

    method BackfillEnvelopes(dialect: Dialect, dumps: Value -> string, iso: DateTime -> string, sha: string -> string,
                             rows: seq<Id>)
      returns (failure: Option<Failure>)
      requires Listing(rows, LegacyIds(outbox))
      modifies this
      ensures (outbox, failure) == Backfilled(Rewriter(dialect, dumps, iso, sha), old(outbox), rows)
    {
      failure := RewriteAll(Rewriter(dialect, dumps, iso, sha), rows);
    }

    // The loop over the fetched rows.
    method RewriteAll(rewrite: (Id, Row) -> Result<Row, Failure>, rows: seq<Id>) returns (failure: Option<Failure>)
      requires forall id | id in rows :: id in outbox
      modifies this
      ensures (outbox, failure) == Backfilled(rewrite, old(outbox), rows)
    {
      ghost var before := outbox;
      assert rows[0..] == rows;
      for i := 0 to |rows|
        invariant forall id | id in rows :: id in outbox
        invariant Backfilled(rewrite, before, rows) == Backfilled(rewrite, outbox, rows[i..])
      {
        match rewrite(rows[i], outbox[rows[i]])
        case Err(e) =>
          return Some(e);
        case Ok(row) =>
          assert rows[i..][1..] == rows[i + 1..];
          outbox := outbox[rows[i] := row];
      }
      return None;
    }
  }

  // A backfill that succeeded leaves no legacy row behind, so running it again changes nothing.
  lemma BackfillTwice(dialect: Dialect, dumps: Value -> string, iso: DateTime -> string, sha: string -> string,
                      outbox: map<Id, Row>, rows: seq<Id>)
    requires Listing(rows, LegacyIds(outbox))
    requires Backfilled(Rewriter(dialect, dumps, iso, sha), outbox, rows).1.None?
    ensures var after := Backfilled(Rewriter(dialect, dumps, iso, sha), outbox, rows).0;
            LegacyIds(after) == {} && Backfilled(Rewriter(dialect, dumps, iso, sha), after, []) == (after, None)
  {
    match dialect
    case Sqlite => SqliteBackfillRaises(dumps, iso, sha, outbox, rows);
    case Postgres =>
      BackfilledRows(dumps, iso, sha, outbox, rows);
      var after := Backfilled(Rewriter(Postgres, dumps, iso, sha), outbox, rows).0;
      forall id | id in after
        ensures !Legacy(after[id])
      {
        assert id in LegacyIds(outbox) ==> Rewritten(iso, sha, id, outbox[id], after[id]);
      }
  }

  // Main result: the hashes the backfill stores keep agreeing with their rows through every later
  // run under the triggers.
  lemma BackfilledHashesSurvive(dialect: Dialect, iso: DateTime -> string, sha: string -> string,
                                before: Row, db: Db, statements: seq<Statement>, id: Id)
    requires id in db.outbox && Rewritten(iso, sha, id, before, db.outbox[id])
    requires PresentThroughout(dialect, db, statements, id)
    ensures id in Run(dialect, db, statements).outbox
    ensures var last := Run(dialect, db, statements).outbox[id];
            last.envelope == LegacyEnvelope(id, before.envelope) && HashAgrees(iso, sha, last)
  {
    HashAgreementForever(dialect, iso, sha, db, statements, id);
  }
}
