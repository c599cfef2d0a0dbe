# Cold-storage guards in Dafny

This project models the parts of the cold-storage platform that guard its data and its agent capability, and proves
what they keep over whole runs. Checking it needs Dafny 4.11 and nothing else: `dafny verify dfyconfig.toml`.

Imperative code of the repository (trigger cascades, migration loops, the readiness state, the published copies of the
agent capability, the execution store) is modelled by classes and loops and proved against specification functions;
the main theorems are about those functions.

## What is modelled

- **Weight-revision authority** (`WeightTables`, `WeightTriggers`, `WeightTheorems`, `WeightDatabase`,
  `AuthorityBackfill`): the two weight tables, both trigger sets as cascades with abort, and the migrations that
  establish the state the triggers keep. A third, dialect-free machine (`UpdateAllowed`, `Updated`) is what both
  cascades are shown to refine.
- **Canonical JSON and hashes** (`JsonText`, `JsonMinimal`, `KeyOrder`, `CanonicalJson`, `CanonicalMeaning`,
  `DatetimeNormalization`, `CanonicalFaults`, `Envelope`): the sorted compact printer of RFC 8259 sections 4 to 7 with
  ASCII escapes, a reader that undoes it, the form that singles the printed text out among the readable ones, the two
  frozen canonicalisers over Python values, what their texts denote, why and when they reject or differ, and the
  envelope and archive hashes over an uninterpreted digest.
- **Audit outbox** (`OutboxTables`, `OutboxTheorems`, `OutboxBackfill`): status CHECK, both trigger sets, and the loop
  that gives legacy rows real hashes.
- **Packaged migration graph** (`Whitespace`, `RevisionGraph`, `RevisionGraphTheorems`): the loader from parsed files
  to heads, and what its checks say about cycles and ancestry.
- **Agent capability** (`AgentCapability`, `AgentApp`, `StrictAudit`): configuration, probe evidence, finalisation, the
  copies published at creation, startup, refresh and shutdown, the request guard, and the strict audit.
- **Readiness** (`Readiness`, `ProbePhases`): the readiness state with reading and writing back as two steps, the probe
  runner, and the startup and readiness phases.
- **Smaller parts** (`RequestMigration`, `CiPlan`, `CiPaths`, `IdempotencyKeys`): the request table migration both
  ways, the CI planner and gate, and idempotency keys in the frontend store.

## What the proofs found

- The dialects are not equivalent on drafts stored with a seal time: SQLite refuses the approval, PostgreSQL commits it
  (`WeightTheorems.DialectsDifferExactly`).
- The PostgreSQL drop routine leaves the authority guards in place, so the PostgreSQL downgrade fails whenever a
  revision is approved (`AuthorityBackfill.DowngradeOutcome`).
- The authority backfill does not look at seals. A row approved by a direct insert between e10f2c4d84e5 and
  451311827adf stays unsealed and can be moved away from its authority row. The correspondence is safe exactly when
  every approved row was sealed (`AuthorityBackfill.BackfillEstablishes`, `WeightTheorems.SealsDecideCorrespondence`).
- The docstring of the archive canonicaliser promises the rules of the outbox one, UTC datetimes included. The outbox
  canonicaliser by itself writes datetimes as they stand; when the two agree on a tree is stated exactly
  (`CanonicalFaults.UnnormalizedTrees`). After the separate normalisation they accept the same trees and write the same
  text, but can reject for different reasons, again with the exact condition (`CanonicalFaults.SameOutcomeExactly`).
- The outbox triggers fire on updates only. Exactly two kinds of statement get past them
  (`OutboxTheorems.StepSafeExactly`).
- On SQLite the outbox hash backfill raises as soon as one legacy row exists, because the textual query delivers the
  payload as text (`OutboxBackfill.SqliteBackfillRaises`).
- The loader does not look for cycles, and a single head need not cover the graph
  (`RevisionGraphTheorems.CycleEscapesLoader`).
- A comment in the startup phase says the schema probe opts in to its own failure code; the name it compares never
  matches (`ProbePhases.MandatoryProbesEscapeUnclassified`).
- A readiness phase that read INITIALIZING can undo a drain, and the exact condition is
  `Readiness.DrainingReturnsExactlyWhenStale`.
- Readiness outcomes published outside READY are filed as startup outcomes
  (`Readiness.ReadinessState.PublishReadinessOutcomes`).
- The old request table lets a version belong to another project than its request; such a table upgrades and then
  cannot be downgraded (`RequestMigration.Migration.RoundTrip`).
- A comment beside the frozen agent matrix says any additional agent route must fail closed. A route without methods or
  without an endpoint is not compared (`StrictAudit.ExtraRouteReportedExactly`, `StrictAudit.SilentRouteEscapes`).
- The strict audit returns an empty report, which counts as a passed audit, as long as there are no canonical settings
  (`StrictAudit.AssertNoUnsafeCapabilities`).
- For a candidate, the second audit on the way to READY repeats the first one's answer (`StrictAudit.SecondAuditNeverDecides`).
- The audit's final identity loops and the loader's final shape check can never decide
  (`StrictAudit.FinalLoopsNeverDecide`, `RevisionGraphTheorems.LoadPackagedHead`).

## Parameters and assumptions

The digest, the ISO text of a datetime, the text of a decimal, clocks, probe results, audit exceptions, drawn UUIDs and
the order in which a query returns rows are parameters. Strings are sequences of Unicode scalar values; dictionaries
have distinct string keys. Foreign keys are enforced.

## Model

| member | source | states |
|---|---|---|
| `WeightTheorems.RunKeepsInv` | `backend/alembic/versions/451311827adf_migration_issue_29_authority_backfill_.py:224-391` | In every run of inserts, updates and deletes on both tables, in either dialect, the authority rows stay exactly the map from (weight set, code) to the approved revision, and approved rows stay sealed |
| `WeightTheorems.StepKeepsInv` | `backend/alembic/versions/451311827adf_migration_issue_29_authority_backfill_.py:460-727` | One statement keeps that correspondence, whether it commits or aborts |
| `WeightTheorems.SqliteUpdateRefines` | `backend/alembic/versions/451311827adf_migration_issue_29_authority_backfill_.py:230-351` | The SQLite cascade with its nested seal does what the intended machine allows, and aborts also when the nested seal would change a seal already there |
| `WeightTheorems.PostgresUpdateRefines` | `backend/alembic/versions/451311827adf_migration_issue_29_authority_backfill_.py:460-655` | The PostgreSQL cascade with its BEFORE seal and unique index does exactly what the intended machine allows |
| `WeightTheorems.RivalMeansClaimed` | `backend/alembic/versions/451311827adf_migration_issue_29_authority_backfill_.py:305-321` | The EXISTS test for a rival approved revision and the presence of an authority row are the same condition in every reachable state |
| `WeightTheorems.ApprovedIsUnrivalled` | `backend/alembic/versions/0031_add_weight_revision_active_approved_unique.py:22-29` | The partial unique index never rejects a row that is already approved |
| `WeightTheorems.UpdatedKeepsInv` | `backend/alembic/versions/451311827adf_migration_issue_29_authority_backfill_.py:323-351` | Claiming on approval and releasing on supersede or revoke keep the correspondence |
| `WeightTheorems.DirectAuthorityWritesFail` | `backend/alembic/versions/451311827adf_migration_issue_29_authority_backfill_.py:353-391` | No direct write to the authority table changes anything: inserts always abort, updates and deletes abort once they match a row |
| `WeightTheorems.DialectsAgree` | `backend/alembic/versions/451311827adf_migration_issue_29_authority_backfill_.py:323-338` | Outside a seal conflict both trigger sets commit the same state or both abort; inside one SQLite always aborts |
| `WeightTheorems.DialectsDifferExactly` | `backend/alembic/versions/451311827adf_migration_issue_29_authority_backfill_.py:323-338` | The dialects differ on a statement exactly when it is an otherwise allowed approval of a row whose seal is already set |
| `WeightTheorems.SealConflictExample` | `backend/alembic/versions/451311827adf_migration_issue_29_authority_backfill_.py:323-338` | A draft stored with a seal time shows the difference |
| `WeightTheorems.RunsAgree` | `backend/alembic/versions/451311827adf_migration_issue_29_authority_backfill_.py:224-391` | From a reachable state with unsealed drafts, every run of statements that do not write `sealed_at` reaches the same state in both dialects |
| `WeightTheorems.UnsealedApprovedEscapes` | `backend/alembic/versions/e10f2c4d84e5_migration_issue_29_seal_approved_.py:33-39` | Every unsealed approved row can be given another code by one accepted statement, in either dialect, leaving its authority row behind |
| `WeightTheorems.SealsDecideCorrespondence` | `backend/alembic/versions/e10f2c4d84e5_migration_issue_29_seal_approved_.py:33-39` | On tables that correspond and meet their CHECKs, every run in either dialect keeps the correspondence exactly when every approved row is sealed |
| `WeightTheorems.StepMovesRow` | `backend/alembic/versions/451311827adf_migration_issue_29_authority_backfill_.py:230-259` | One statement moves a row along a legal transition only and leaves the frozen columns of a sealed row alone |
| `WeightTheorems.SealedForever` | `backend/alembic/versions/451311827adf_migration_issue_29_authority_backfill_.py:230-247` | Once approved and sealed, the frozen columns are identical in every later state while the row exists |
| `WeightTheorems.StatusHistoryIsLifecycle` | `backend/alembic/versions/451311827adf_migration_issue_29_authority_backfill_.py:249-259` | The statuses a row shows over a run are a stretch of draft, approved, then superseded or revoked |
| `WeightTheorems.RunKeepsEvidence` | `backend/alembic/versions/451311827adf_migration_issue_29_authority_backfill_.py:224-351` | In every run an approved revision carries its approval time and a named approver, and no other status appears |
| `WeightTheorems.DraftIsStored` | `backend/alembic/versions/451311827adf_migration_issue_29_authority_backfill_.py:224-303` | A new draft is stored as written when its id and its (code, revision) are new |
| `WeightTheorems.DraftIsEditable` | `backend/alembic/versions/451311827adf_migration_issue_29_authority_backfill_.py:230-303` | An edit of an unsealed draft that leaves it a draft is stored unless it takes another (code, revision) |
| `WeightTheorems.ApprovalTakesEffect` | `backend/alembic/versions/451311827adf_migration_issue_29_authority_backfill_.py:305-338` | Approving an unsealed draft with evidence, while its key is free, succeeds in both dialects, seals the row and claims the key |
| `WeightTheorems.ReleaseTakesEffect` | `backend/alembic/versions/451311827adf_migration_issue_29_authority_backfill_.py:340-351` | Superseding or revoking an approved revision succeeds in both dialects, keeps its seal and releases its key |
| `WeightTheorems.DeletionExactly` | `backend/alembic/versions/e10f2c4d84e5_migration_issue_29_seal_approved_.py:45-76` | A revision can be deleted exactly when it is not approved |
| `WeightDatabase.Database.UpdateRowSqlite` | `backend/alembic/versions/451311827adf_migration_issue_29_authority_backfill_.py:305-351` | The in-place SQLite cascade, nested update included, reaches the state of its specification or aborts with it |
| `WeightDatabase.Database.UpdateRowPostgres` | `backend/alembic/versions/451311827adf_migration_issue_29_authority_backfill_.py:460-655` | The in-place PostgreSQL cascade reaches the state of its specification or aborts with it |
| `WeightDatabase.Database.Execute` | `backend/alembic/versions/451311827adf_migration_issue_29_authority_backfill_.py:224-391` | A statement is committed or undone as a whole and keeps the correspondence |
| `AuthorityBackfill.Migration.BackfillAuthority` | `backend/alembic/versions/451311827adf_migration_issue_29_authority_backfill_.py:87-216` | The backfill raises exactly on duplicate approvals or an inconsistent authority row, leaving the tables alone; otherwise the authority table equals the approved set, new rows carry the approval time, and the insert, count and mismatch failures never occur |
| `AuthorityBackfill.Migration.CheckExistingRows` | `backend/alembic/versions/451311827adf_migration_issue_29_authority_backfill_.py:123-154` | Step 4 fails exactly when some existing authority row names no revision, one that is not approved, or one under another key |
| `AuthorityBackfill.CompletableExactly` | `backend/alembic/versions/451311827adf_migration_issue_29_authority_backfill_.py:97-154` | The two conditions the backfill checks hold exactly when some completion of the existing authority rows corresponds to the approved revisions |
| `AuthorityBackfill.Migration.InsertMissingRows` | `backend/alembic/versions/451311827adf_migration_issue_29_authority_backfill_.py:156-184` | Step 5 inserts one row per approved revision without one and never meets a conflict |
| `AuthorityBackfill.NoConflict` | `backend/alembic/versions/451311827adf_migration_issue_29_authority_backfill_.py:167-184` | Once the first four steps passed, the key of a missing revision is free |
| `AuthorityBackfill.SameCount` | `backend/alembic/versions/451311827adf_migration_issue_29_authority_backfill_.py:186-195` | Corresponding tables have equally many authority rows and approved revisions |
| `AuthorityBackfill.Migration.SealNonDrafts` | `backend/alembic/versions/e10f2c4d84e5_migration_issue_29_seal_approved_.py:33-39` | The bulk update seals every non-draft row with its approval or creation time and no draft |
| `AuthorityBackfill.Migration.SealThenBackfill` | `backend/alembic/versions/e10f2c4d84e5_migration_issue_29_seal_approved_.py:33-39` | The two upgrades in order establish the state the triggers keep |
| `AuthorityBackfill.BackfillEstablishes` | `backend/alembic/versions/451311827adf_migration_issue_29_authority_backfill_.py:87-216` | After a successful backfill the trigger invariant holds, and every later run keeps the correspondence, exactly when approved rows were sealed before |
| `AuthorityBackfill.Migration.DowngradeDelete` | `backend/alembic/versions/451311827adf_migration_issue_29_authority_backfill_.py:60-73` | The downgrade deletion removes the rows of approved revisions, or fails as a whole where the delete guard is still in place |
| `AuthorityBackfill.DowngradeOutcome` | `backend/alembic/versions/451311827adf_migration_issue_29_authority_backfill_.py:730-744` | SQLite empties the authority table; PostgreSQL, whose drop routine leaves the guards, fails exactly when some revision is approved |
| `AuthorityBackfill.DowngradeThenBackfill` | `backend/alembic/versions/451311827adf_migration_issue_29_authority_backfill_.py:60-216` | Downgrading on SQLite and upgrading again restores every claim |
| `JsonText.ReadUndoesPrint` | `backend/alembic/helpers/frozen_outbox_envelope_v1.py:63-71` | A reader for RFC 8259 texts recovers every printed tree and stops where the printed value ends; which of the readable texts is printed is the next two rows' subject |
| `JsonMinimal.PrintIsAscii` | `backend/alembic/helpers/frozen_outbox_envelope_v1.py:66-71` | Every character of the printed text lies between space and tilde |
| `JsonMinimal.PrintIsTheMinimalText` | `backend/alembic/helpers/frozen_outbox_envelope_v1.py:63-71` | A text is the printed one exactly when it reads as the tree and is minimal: ASCII, no white space between tokens, lower-case hexadecimal, the two-character escape wherever there is one, no needless escape and no escaped slash |
| `JsonText.ReadCharUndoes` | `backend/alembic/helpers/frozen_outbox_envelope_v1.py:66-71` | Every character, surrogate pairs included, is recovered from what is printed for it; that this is its ASCII escape is `JsonMinimal.PrintIsTheMinimalText` |
| `JsonText.ReadIntUndoes` | `backend/alembic/helpers/frozen_outbox_envelope_v1.py:66-71` | Every integer is recovered from its decimal text |
| `JsonText.PrintInjective` | `backend/alembic/helpers/frozen_outbox_envelope_v1.py:63-71` | The printed text determines the tree |
| `KeyOrder.SortSorts` | `backend/alembic/helpers/frozen_outbox_envelope_v1.py:66-69` | Keys are written in strictly increasing code-point order |
| `KeyOrder.LessIsLexicographic` | `backend/alembic/helpers/frozen_outbox_envelope_v1.py:66-69` | The key order is the ascending one by the first differing character, a proper prefix coming first |
| `KeyOrder.SortIgnoresOrder` | `backend/alembic/helpers/frozen_outbox_envelope_v1.py:66-69` | The key order written does not depend on insertion order |
| `CanonicalJson.SameValueSameText` | `backend/alembic/helpers/frozen_outbox_envelope_v1.py:51-71` | The text, or the rejection, does not depend on the insertion order of any dictionary |
| `CanonicalMeaning.CanonicalReadsBack` | `backend/alembic/helpers/frozen_outbox_envelope_v1.py:42-71` | A canonical text is minimal and reads as a tree that denotes the value: scalars as themselves, decimals and datetimes as their strings, lists item by item, dictionaries in key order under the same keys |
| `CanonicalMeaning.CanonicalTextExactly` | `backend/alembic/helpers/frozen_scheme_source_archive_v1.py:75-96` | No other text does so: a minimal text that reads as a tree denoting the value is its canonical text |
| `CanonicalJson.EncodeInjective` | `backend/alembic/helpers/frozen_outbox_envelope_v1.py:42-71` | Plain trees with equal encodings are equal values of equal types |
| `CanonicalJson.CanonicalInjective` | `backend/alembic/helpers/frozen_scheme_source_archive_v1.py:75-96` | Plain float-free trees have the same canonical text exactly when they are equal values of equal types |
| `DatetimeNormalization.ArchiveIsNormalizedOutbox` | `backend/alembic/helpers/frozen_scheme_source_archive_v1.py:42-96` | The archive canonicaliser equals the outbox canonicaliser after datetime normalisation: same text or both reject, and the same rejection unless a datetime has no UTC form |
| `DatetimeNormalization.NormalizeIdempotent` | `backend/alembic/helpers/frozen_outbox_envelope_v1.py:74-82` | Normalising twice is normalising once |
| `DatetimeNormalization.SameInstantsSameText` | `backend/alembic/helpers/frozen_scheme_source_archive_v1.py:42-96` | Trees whose datetimes denote the same instants at different offsets have the same text |
| `CanonicalFaults.EncoderReports` | `backend/alembic/helpers/frozen_scheme_source_archive_v1.py:49-96` | The encoder rejects a tree with the fault of its first faulty leaf in key order, and otherwise succeeds |
| `CanonicalFaults.FaultsAreReal` | `backend/alembic/helpers/frozen_outbox_envelope_v1.py:42-71` | A tree is rejected exactly when it holds a faulty leaf, for a reason it holds |
| `CanonicalFaults.NormalizesExactly` | `backend/alembic/helpers/frozen_outbox_envelope_v1.py:74-82` | Normalisation succeeds exactly when every datetime has a UTC form |
| `CanonicalFaults.SameOutcomeExactly` | `backend/alembic/helpers/frozen_scheme_source_archive_v1.py:42-96` | On every tree, the archive canonicaliser and the normalising outbox path give the same text or the same rejection exactly when every datetime has a UTC form, or there is no float and the first faulty leaf is such a datetime |
| `CanonicalFaults.SameOutcomeSerializable` | `backend/alembic/helpers/frozen_scheme_source_archive_v1.py:42-96` | Without unserializable leaves: exactly when every datetime has a UTC form or there is no float |
| `CanonicalFaults.RejectionsMayDiffer` | `backend/alembic/helpers/frozen_scheme_source_archive_v1.py:90-96` | A list with a datetime without UTC form and a float is rejected for different reasons by the two paths |
| `CanonicalFaults.UnnormalizedTrees` | `backend/alembic/helpers/frozen_scheme_source_archive_v1.py:75-96` | On every tree, the two canonicalisers without normalisation give the same text or rejection exactly when there is a float, or the first faulty leaf is unserializable, or every datetime's own text is that of its UTC form |
| `CanonicalFaults.UnnormalizedCleanTrees` | `backend/alembic/helpers/frozen_scheme_source_archive_v1.py:75-96` | On trees without faulty leaves the datetimes alone decide |
| `CanonicalFaults.UnnormalizedDatetimes` | `backend/alembic/helpers/frozen_scheme_source_archive_v1.py:75-96` | The same on a single datetime |
| `Envelope.EnvelopeTextCommits` | `backend/alembic/helpers/frozen_outbox_envelope_v1.py:109-129` | Two envelopes have the same hashed text exactly when all fourteen fields agree, payloads compared after normalisation; which field stands under which key is the next row |
| `Envelope.EnvelopeTextReadsBack` | `backend/alembic/helpers/frozen_outbox_envelope_v1.py:109-129` | The hashed text is minimal and reads as an object with exactly the fourteen members, each field under its own key, absent ids as null, datetimes in UTC |
| `Envelope.EnvelopeHashCommits` | `backend/alembic/helpers/frozen_outbox_envelope_v1.py:85-129` | Equal hashes of the texts of `Envelope.EnvelopeTextReadsBack` mean equal envelopes or exhibit a digest collision |
| `Envelope.ArchiveHashCommits` | `backend/alembic/helpers/frozen_scheme_source_archive_v1.py:139-154` | Equal archive hashes mean equal payloads or exhibit a digest collision |
| `Envelope.PrepareSlots` | `backend/alembic/helpers/frozen_scheme_source_archive_v1.py:110-136` | The slot list keeps every pair in the caller's order, or reports the first malformed entry |
| `Envelope.ArchiveHashCommitsToSlots` | `backend/alembic/helpers/frozen_scheme_source_archive_v1.py:110-154` | The archive hash commits to the slots one by one and in order |
| `OutboxTheorems.RunKeepsSafe` | `backend/alembic/versions/0033_extend_outbox_envelope.py:162-187` | Over every run without a harmful statement, claim, publish and fail columns match the status and each published row has exactly one audit event with its identity |
| `OutboxTheorems.StepSafeExactly` | `backend/alembic/versions/0033_extend_outbox_envelope.py:65-92` | One statement leads from a safe state to an unsafe one exactly when it inserts an accepted published row without its audit event, or deletes an audit event a published row needs |
| `OutboxTheorems.RunSafeExactly` | `backend/alembic/versions/0033_extend_outbox_envelope.py:545-568` | A run stays safe throughout exactly when none of its statements is harmful where it executes |
| `OutboxTheorems.DisciplinedIsHarmless` | `backend/alembic/versions/0033_extend_outbox_envelope.py:545-568` | Deleting no audit event and inserting no published row suffices, whatever the tables hold |
| `OutboxTheorems.DisciplineIsNeeded` | `backend/alembic/versions/0033_extend_outbox_envelope.py:545-557` | Neither part of that promise can be dropped, because the triggers fire on updates only |
| `OutboxTheorems.EnvelopeTriggersAgree` | `backend/alembic/versions/0033_extend_outbox_envelope.py:31-63` | The PostgreSQL function and the SQLite WHEN clause reject the same updates |
| `OutboxTheorems.RunsAgree` | `backend/alembic/versions/0033_extend_outbox_envelope.py:516-568` | Both trigger sets drive every run to the same state |
| `OutboxTheorems.TerminalRowsAbsorb` | `backend/alembic/versions/0033_extend_outbox_envelope.py:31-63` | Published and failed rows never change again while they exist |
| `OutboxTheorems.ColumnsFollowStatus` | `backend/alembic/versions/0033_extend_outbox_envelope.py:162-187` | In a safe state claim columns are set exactly while processing, the publish time exactly when published, the fail time exactly when failed |
| `OutboxTheorems.UpdateCommitsExactly` | `backend/alembic/versions/0033_extend_outbox_envelope.py:31-92` | An update with its own identity commits exactly when the row is not terminal, envelope and hashes stay, the columns follow the status, and a row being published has its audit event |
| `OutboxTheorems.TriggerCoversHashedColumns` | `backend/alembic/versions/0033_extend_outbox_envelope.py:516-543` | An update that passes the envelope trigger changes no hashed column and neither hash |
| `OutboxTheorems.HashAgreementForever` | `backend/alembic/versions/0033_extend_outbox_envelope.py:31-63` | Stored hashes that agree with their columns agree after any run while the row exists |
| `OutboxBackfill.RewriteRow` | `backend/alembic/versions/0033_extend_outbox_envelope.py:287-358` | On PostgreSQL a legacy row is rewritten exactly when it is hashable, and then its hashes are those of its own columns and nothing else changed; on SQLite, where the payload arrives as text, it is always rejected |
| `OutboxBackfill.RewrittenColumns` | `backend/alembic/versions/0033_extend_outbox_envelope.py:330-360` | Column by column: the legacy actor, the correlation id made from the row id, a schema version only where none was set, and every other column as before |
| `OutboxBackfill.RowsAreIndependent` | `backend/alembic/versions/0033_extend_outbox_envelope.py:287-360` | The loop rewrites each listed row from its own old columns, whatever the order of the listing |
| `OutboxBackfill.Migration.BackfillEnvelopes` | `backend/alembic/versions/0033_extend_outbox_envelope.py:277-360` | The in-place loop reaches the state of its specification and stops at the first failing row |
| `OutboxBackfill.BackfilledRows` | `backend/alembic/versions/0033_extend_outbox_envelope.py:277-360` | On PostgreSQL the loop succeeds exactly when every legacy row is hashable; then every legacy row agrees with its hashes and no other row is touched |
| `OutboxBackfill.SqliteBackfillRaises` | `backend/alembic/versions/0033_extend_outbox_envelope.py:611-694` | On SQLite the loop succeeds exactly when there is no legacy row; otherwise it raises on the first one and changes nothing |
| `OutboxBackfill.BackfillTwice` | `backend/alembic/versions/0033_extend_outbox_envelope.py:277-360` | No legacy row is left, so a second run changes nothing |
| `OutboxBackfill.BackfilledHashesSurvive` | `backend/alembic/versions/0033_extend_outbox_envelope.py:277-360` | The hashes the backfill stores keep agreeing through every later run under the triggers |
| `RevisionGraph.EvaluateDownRevision` | `backend/src/cold_storage/bootstrap/runtime_readiness.py:2272-2323` | A static down_revision is rejected by the rule of `RevisionGraphTheorems.FileFaultsExactly` and yields the parents of `RevisionGraphTheorems.FilesNameParents` |
| `RevisionGraph.ReadFiles` | `backend/src/cold_storage/bootstrap/runtime_readiness.py:2160-2194` | The first loop accumulates exactly the declared nodes and the ids named as parents, or stops at the first rejected file |
| `RevisionGraph.ParseRevisions` | `backend/src/cold_storage/bootstrap/runtime_readiness.py:2127-2211` | The loader accepts exactly the readable, duplicate-free lists of files without dangling parents; its heads are exactly the revisions no file names; otherwise it reports the first rejected file |
| `RevisionGraphTheorems.FilesNameParents` | `backend/src/cold_storage/bootstrap/runtime_readiness.py:2272-2323` | In an accepted graph each file's revision has exactly the parents its down_revision names, stripped, in order and none left out, and no named parent is a head |
| `RevisionGraphTheorems.ReadableExactly` | `backend/src/cold_storage/bootstrap/runtime_readiness.py:2160-2194` | A file is readable exactly when it parses and carries a well-formed revision and a static down_revision of well-formed ids |
| `RevisionGraphTheorems.FileFaultsExactly` | `backend/src/cold_storage/bootstrap/runtime_readiness.py:2160-2323` | Which of the two failures the first loop raises on a file, by what the file holds; of several bad elements the first decides |
| `RevisionGraph.CheckParents` | `backend/src/cold_storage/bootstrap/runtime_readiness.py:2196-2206` | The parent loops accept exactly the closed graphs |
| `RevisionGraph.CollectHeads` | `backend/src/cold_storage/bootstrap/runtime_readiness.py:2208-2211` | The head loop keeps exactly the ids nobody consumes, each once |
| `RevisionGraphTheorems.LoadPackagedHead` | `backend/src/cold_storage/bootstrap/runtime_readiness.py:2096-2124` | The reported head, or failure, follows from the number of heads; the final shape check never fails |
| `RevisionGraphTheorems.NoHeadMeansCycle` | `backend/src/cold_storage/bootstrap/runtime_readiness.py:2106-2110` | A non-empty graph without heads contains a cycle |
| `RevisionGraphTheorems.SingleHeadCoverage` | `backend/src/cold_storage/bootstrap/runtime_readiness.py:2106-2110` | With one head, every revision is its ancestor exactly when every cycle climbs to it |
| `RevisionGraphTheorems.SingleHeadCoversAcyclicGraph` | `backend/src/cold_storage/bootstrap/runtime_readiness.py:2106-2110` | In an acyclic graph every revision is an ancestor of the single head |
| `RevisionGraphTheorems.CycleEscapesLoader` | `backend/src/cold_storage/bootstrap/runtime_readiness.py:2127-2211` | The loader accepts a graph with a cycle its head does not cover |
| `RevisionGraphTheorems.PaddedIdIsHead` | `backend/src/cold_storage/bootstrap/runtime_readiness.py:2191-2193` | Parents are stored stripped and ids are not, so an id with surrounding white space can only be a head |
| `RevisionGraphTheorems.OrderKeepsAcceptance` | `backend/src/cold_storage/bootstrap/runtime_readiness.py:2160-2193` | Whether a list of files is accepted does not depend on their order |
| `RevisionGraphTheorems.OrderDoesNotMatter` | `backend/src/cold_storage/bootstrap/runtime_readiness.py:2160-2211` | Neither do the edges nor the heads |
| `Whitespace.StripIdempotent` | `backend/src/cold_storage/bootstrap/runtime_readiness.py:2423-2446` | Stripping twice is stripping once, which the shape validator relies on |
| `Whitespace.StripRemovesEnds` | `backend/src/cold_storage/bootstrap/runtime_readiness.py:2423-2446` | Stripping removes white space at both ends and nothing else |
| `AgentCapability.ResolvesExactly` | `backend/src/cold_storage/bootstrap/settings.py:71-178` | An enabled configuration is valid exactly when it is the documented one; the state follows the intent |
| `AgentCapability.FailureCodesAreExact` | `backend/src/cold_storage/bootstrap/settings.py:82-167` | Which of the three failure codes an invalid configuration carries, in terms of its fields |
| `AgentCapability.ReadyIsEarned` | `backend/src/cold_storage/bootstrap/runtime_readiness.py:293-435` | READY is reached exactly with a valid configuration, a passed probe for that provider and model, a verified schema and both audits passed |
| `AgentCapability.ResolvedIsHonest` | `backend/src/cold_storage/bootstrap/runtime_readiness.py:293-399` | Preflight evidence never claims READY and reports a passed probe exactly when it was proved |
| `AgentCapability.PreflightFailureCode` | `backend/src/cold_storage/bootstrap/runtime_readiness.py:260-383` | A failed preflight carries the cause: the code of the configuration fault, of the failed probe, or of the first mismatch between probe evidence and settings |
| `AgentCapability.PreflightExactly` | `backend/src/cold_storage/bootstrap/runtime_readiness.py:293-399` | The preflight evidence field by field when disabled, wrongly configured, not proved by the probe, or proved |
| `AgentApp.App.constructor` | `backend/src/cold_storage/bootstrap/app.py:838-875` | Creation fills every copy from one resolution |
| `AgentApp.App.Publish` | `backend/src/cold_storage/bootstrap/app.py:504-528` | Publication overwrites every copy with one authority and its evidence |
| `AgentApp.App.Startup` | `backend/src/cold_storage/bootstrap/app.py:697-757` | Startup publishes the finalised evidence or, when initialisation or an audit fails, publishes nothing and clears the process-wide copy |
| `AgentApp.App.Refresh` | `backend/src/cold_storage/bootstrap/app.py:531-669` | In place, refresh reaches the state of `AgentApp.Step`, whose content for candidates is `AgentApp.RefreshPublishesExactly`, and changes nothing when it returns early or an unexpected exception escapes |
| `AgentApp.RefreshPublishesExactly` | `backend/src/cold_storage/bootstrap/app.py:531-669` | What a refresh leaves, field by field: the probe's own cause when the probe does not prove the settings, `Unavailable` with the flags of the failed audit when an audit fails, READY when both pass, everything as it was on an unexpected exception |
| `AgentApp.StartupPublishesExactly` | `backend/src/cold_storage/bootstrap/app.py:697-757` | What a startup leaves of the evidence it finds, field by field, for each outcome of initialisation and the two audits |
| `AgentApp.PublishedCopies` | `backend/src/cold_storage/bootstrap/dependencies.py:463-517` | The bindings and the projection published in each of the three states, and that all copies carry one authority |
| `AgentApp.App.EnsureReady` | `backend/src/cold_storage/bootstrap/app.py:345-384` | On coherent copies the guard, which reads the box alone, admits exactly when the published projection says available, on proven evidence, and refuses with the projection's code |
| `AgentApp.StepKeepsCoherent` | `backend/src/cold_storage/bootstrap/app.py:504-757` | One startup, refresh or shutdown keeps all copies describing one state |
| `AgentApp.RunKeepsCoherent` | `backend/src/cold_storage/bootstrap/app.py:504-757` | So does every sequence of them, with arbitrary probe and audit results |
| `AgentApp.GuardAdmitsExactlyWhenReady` | `backend/src/cold_storage/bootstrap/dependencies.py:463-517` | In every reachable state the guard admits exactly when the boxed state, the readiness evidence, the projection and the manifest all say READY, and then the evidence was earned |
| `AgentApp.RefreshDecidesAfresh` | `backend/src/cold_storage/bootstrap/app.py:531-669` | A refresh that publishes decides readiness from its own inputs alone; one that does not changes nothing; and when it publishes |
| `AgentApp.ReadyAfterStartup` | `backend/src/cold_storage/bootstrap/app.py:672-757` | After startup a new application admits requests exactly when mode, configuration, probe, initialisation and both audits all allow it |
| `AgentApp.ReadyHasCause` | `backend/src/cold_storage/bootstrap/app.py:531-757` | Whenever a run ends READY, its last publishing event passed both audits, and the settings behind the evidence in force, key included, were valid and proved by their probe |
| `AgentApp.NonCandidateNeverReady` | `backend/src/cold_storage/bootstrap/app.py:1654-1660` | An application created outside strict modes or without a valid configuration never admits a request |
| `Readiness.ReadinessState.Transition` | `backend/src/cold_storage/bootstrap/runtime_readiness.py:1606-1626` | The state is the requested one unless the previous one was SHUTDOWN_COMPLETE, or was DRAINING and READY was asked for; and what both outcome records become |
| `Readiness.ReadinessState.PublishReadinessOutcomes` | `backend/src/cold_storage/bootstrap/runtime_readiness.py:1755-1758` | An uninterrupted readiness phase keeps the state; outside READY its outcomes replace the startup outcomes |
| `Readiness.ReadyIsNotRegained` | `backend/src/cold_storage/bootstrap/runtime_readiness.py:1606-1626` | Once READY is published and no caller holds a stale INITIALIZING read, no interleaving returns to READY after leaving it |
| `Readiness.ShutdownAbsorbs` | `backend/src/cold_storage/bootstrap/runtime_readiness.py:1606-1626` | SHUTDOWN_COMPLETE is never left, whatever the callers hold |
| `Readiness.DrainTakesEffect` | `backend/src/cold_storage/bootstrap/runtime_readiness.py:1606-1626` | From a settled machine every schedule with a drain or a completed shutdown ends in DRAINING or SHUTDOWN_COMPLETE |
| `Readiness.ReadyPersists` | `backend/src/cold_storage/bootstrap/runtime_readiness.py:1606-1626` | A READY machine whose callers hold no other state stays READY until someone drains or shuts down |
| `Readiness.DrainingReturnsExactlyWhenStale` | `backend/src/cold_storage/bootstrap/runtime_readiness.py:1731-1759` | A draining process can become READY again exactly when a stale INITIALIZING read is waiting to be written back |
| `Readiness.DrainingReturnsWithoutStartup` | `backend/src/cold_storage/bootstrap/runtime_readiness.py:1731-1759` | With startup over, exactly when an INITIALIZING and a READY read are both waiting |
| `ProbePhases.RunProbe` | `backend/src/cold_storage/bootstrap/runtime_readiness.py:649-778` | The outcome or exception of one probe, by how its call ended |
| `ProbePhases.RunStartupPhase` | `backend/src/cold_storage/bootstrap/runtime_readiness.py:1652-1728` | READY is published exactly when every probe passes within its budget and the audit finds nothing; otherwise the first failing probe is reported through its channel |
| `ProbePhases.RunReadinessPhase` | `backend/src/cold_storage/bootstrap/runtime_readiness.py:1731-1759` | Every probe runs and all outcomes are published; only an exception stops the phase |
| `ProbePhases.SchemaCodeSelected` | `backend/src/cold_storage/bootstrap/runtime_readiness.py:1679-1681` | The schema-specific code is selected exactly when the probe's qualified name is the bare schema name |
| `ProbePhases.MandatoryProbesEscapeUnclassified` | `backend/src/cold_storage/bootstrap/runtime_readiness.py:2737-2748` | No mandatory probe has that name, so an exception inside any of them escapes unclassified |
| `StrictAudit.ValidateManifest` | `backend/src/cold_storage/bootstrap/runtime_readiness.py:1061-1125` | The manifest is accepted exactly when it lists the expected bindings, each once, in any order |
| `StrictAudit.FlattenedExactly` | `backend/src/cold_storage/bootstrap/runtime_readiness.py:1040-1058` | Flattening yields exactly the concrete routes below the wrappers |
| `StrictAudit.Flatten` | `backend/src/cold_storage/bootstrap/runtime_readiness.py:1040-1058` | The recursive loop computes that flattening |
| `StrictAudit.AuditAgent` | `backend/src/cold_storage/bootstrap/runtime_readiness.py:1326-1468` | The agent capability is reported exactly when its tokens fail, or its routes are present and differ from the frozen endpoints or the frozen matrix |
| `StrictAudit.AuditCoefficients` | `backend/src/cold_storage/bootstrap/runtime_readiness.py:1470-1534` | The coefficient capability is reported exactly when its tokens fail, or its routes are present and the provider or the endpoints differ |
| `StrictAudit.TokensExactly` | `backend/src/cold_storage/bootstrap/runtime_readiness.py:1326-1375` | Which runtime tokens must be present or absent for each capability, and when the real gateway is required |
| `StrictAudit.FinalLoopsNeverDecide` | `backend/src/cold_storage/bootstrap/runtime_readiness.py:1455-1465` | Once the endpoint sets are equal the final identity loops find every endpoint |
| `StrictAudit.Enumerate` | `backend/src/cold_storage/bootstrap/runtime_readiness.py:1263-1536` | With a matching manifest the audit lists exactly the capabilities that are not safe; outside strict modes and without canonical settings it lists nothing |
| `StrictAudit.AssertNoUnsafeCapabilities` | `backend/src/cold_storage/bootstrap/runtime_readiness.py:1539-1575` | The assertion returns a proof with both flags exactly when nothing is reported, and otherwise raises; without canonical settings it always returns one |
| `StrictAudit.PublishedManifestPasses` | `backend/src/cold_storage/bootstrap/runtime_readiness.py:1204-1212` | A published manifest passes the validation exactly against an authority in the published state |
| `StrictAudit.SecondAuditNeverDecides` | `backend/src/cold_storage/bootstrap/app.py:585-641` | For a candidate the audit of the final authority and manifest says what the audit of the provisional ones said |
| `StrictAudit.RefreshUnderRealAudits` | `backend/src/cold_storage/bootstrap/app.py:531-669` | With its real audits, a refresh under a valid configuration leaves the guard admitting exactly when the probe proves the configuration and the audited application is safe |
| `StrictAudit.ExtraRouteReportedExactly` | `backend/src/cold_storage/bootstrap/runtime_readiness.py:1413-1449` | An extra agent route beside the frozen ones is reported exactly when it serves an endpoint that is not frozen |
| `StrictAudit.SilentRouteEscapes` | `backend/src/cold_storage/bootstrap/runtime_readiness.py:1413-1424` | An extra agent route without methods or endpoint is never reported |
| `RequestMigration.NewCheckImpliesOld` | `backend/alembic/versions/0027_separate_requested_and_resolved_request_identity.py:358-408` | The new CHECK implies the old one once the resolved columns are dropped |
| `RequestMigration.ChecksByColumn` | `backend/alembic/versions/0027_separate_requested_and_resolved_request_identity.py:358-408` | Both CHECKs, column by column |
| `RequestMigration.UpgradedRowCheck` | `backend/alembic/versions/0027_separate_requested_and_resolved_request_identity.py:358-408` | An upgraded row meets the new CHECK exactly when it was not ACCEPTED |
| `RequestMigration.Migration.Upgrade` | `backend/alembic/versions/0027_separate_requested_and_resolved_request_identity.py:199-273` | From a valid table the upgrade succeeds exactly when no request is ACCEPTED, and copies every row |
| `RequestMigration.Migration.GuardDowngrade` | `backend/alembic/versions/0027_separate_requested_and_resolved_request_identity.py:46-121` | The three counts are zero exactly when every requested project and version exist and belong together |
| `RequestMigration.Migration.Downgrade` | `backend/alembic/versions/0027_separate_requested_and_resolved_request_identity.py:276-352` | From a valid table the downgrade succeeds exactly when the guard passes |
| `RequestMigration.Migration.RoundTrip` | `backend/alembic/versions/0027_separate_requested_and_resolved_request_identity.py:199-352` | Downgrade after upgrade is the identity on every request, and when both succeed |
| `RequestMigration.DowngradeThenUpgrade` | `backend/alembic/versions/0027_separate_requested_and_resolved_request_identity.py:199-352` | The other direction is the identity exactly when the resolved columns are empty |
| `CiPlan.ClassifyPaths` | `scripts/ci/classify_changes.py:102-151` | The scope depends on the set of paths only, by the rule of `CiPaths.ScopeExactly`; the reason of an early full plan is that of the first path that forces it |
| `CiPaths.ScopeExactly` | `scripts/ci/classify_changes.py:102-151` | Each scope by where the paths lie and how their files are called: all frontend, all documents, some backend without frontend, backend with frontend, and FULL for anything else |
| `CiPaths.KindExactly` | `scripts/ci/classify_changes.py:106-141` | A path counts as documents, backend or frontend exactly when it lies there, has clean components, is no manifest and lies in no place that calls for the full plan |
| `CiPaths.OnePathForcesFull` | `scripts/ci/classify_changes.py:106-133` | One malformed path, manifest or path in a full place makes the whole change FULL |
| `CiPaths.SplitJoins` | `scripts/ci/classify_changes.py:107-112` | Joining the components gives the path back, and no component contains the separator |
| `CiPlan.RequiredJobsExactly` | `scripts/ci/classify_changes.py:24-38` | Which kinds of changed paths call for each regular job |
| `CiPlan.MorePathsMoreJobs` | `scripts/ci/classify_changes.py:102-151` | Adding paths to a non-empty change never drops a required job other than `lightweight` |
| `CiPlan.GateErrors` | `scripts/ci/ci_gate.py:22-44` | The gate reports nothing exactly when the classifier's outputs are consistent, every required job succeeded and every other job succeeded or was skipped |
| `CiPlan.ConsistentByKey` | `scripts/ci/ci_gate.py:30-35` | Which output must say what for the outputs to be consistent with a scope |
| `CiPlan.GateCoversParts` | `scripts/ci/ci_gate.py:22-44` | A change that passes the gate has run everything any part of it would have required, except `lightweight` |
| `IdempotencyKeys.ExecutionStore.ResolveIdempotencyKey` | `frontend/src/stores/fiveStageExecution.ts:91-113` | The stored key is reused exactly when fields and payload are the stored ones; otherwise all three items are replaced |
| `IdempotencyKeys.ExecutionStore.Execute` | `frontend/src/stores/fiveStageExecution.ts:120-156` | Submission aborts the previous request and records the new one |
| `IdempotencyKeys.ExecutionStore.Complete` | `frontend/src/stores/fiveStageExecution.ts:158-197` | Completion of an aborted request is dropped; a live success is stored |
| `IdempotencyKeys.ExecutionStore.Cancel` | `frontend/src/stores/fiveStageExecution.ts:199-202` | Cancelling aborts the live request and stops executing |
| `IdempotencyKeys.KeysAreExact` | `frontend/src/stores/fiveStageExecution.ts:91-202` | Over every run with fresh keys, two submissions carry one key exactly when nothing different was submitted between them; so no key is sent with two contents |
| `IdempotencyKeys.FirstSubmissionAfterReload` | `frontend/src/stores/fiveStageExecution.ts:91-113` | After a page reload the first submission carries the stored key exactly when its fields and payload were stored with it |
| `IdempotencyKeys.CompletionEffects` | `frontend/src/stores/fiveStageExecution.ts:158-197` | A response to a superseded or cancelled submission changes nothing stored, and a live one leaves session storage as the submission wrote it |
| `IdempotencyKeys.ResubmissionReusesKey` | `frontend/src/stores/fiveStageExecution.ts:91-202` | An identical resubmission reuses its key whatever responses and cancellations come between |

## Left out

- Weight tables: statements touch one row, revision ids are never updated, the foreign key to weight sets and column lengths are not modelled; a multi-row statement is a sequence of row operations only up to its atomicity.
- Weight tables: the triggers of earlier revisions restored by the downgrade, and the PostgreSQL downgrade beyond the delete guard.
- Duplicate detection groups rows in SQL; the model states the condition and not the grouping, and the error texts are not modelled.
- Canonical JSON: two lone surrogates print like one astral character, so strings are limited to scalar values; non-string dictionary keys are not modelled.
- Injectivity covers null, bool, int, string, list and dictionary; decimals, datetimes and tuples print like strings and lists and are excluded on purpose.
- SHA-256 is an arbitrary function, so the hash theorems end in equality or an exhibited collision.
- OutboxBackfill.Migration.BackfillEnvelopes: on SQLite every delivered payload is text; that a stored JSON scalar can come back as a number, which the loop rejects as well, is not modelled.
- Outbox: the dispatcher, retries and claim expiry are application code and are not modelled; the constraints 0033 puts on columns outside the trigger and CHECK are taken as given.
- RevisionGraph.ParseRevisions: starts from syntax trees reduced to the first suitable assignments; file reading and parsing appear only as the unparsable case.
- Agent capability: routes, service factories and the gateway appear only where the audit reads them; one application per process, so the process-wide copy is not shared with a second one.
- AgentApp.App.Startup: initialisation failures are one flag, whatever their cause.
- Locks: publication under the authority lock is one step; the readiness state is the only place where steps of several callers are interleaved.
- Readiness: replacing the state object after shutdown is not modelled; each theorem is about one object.
- Probe bodies, signal delivery and timing are reduced to how a probe call ends and how long it took.
- CI planning from events and git output, and the text of gate errors.
- Frontend store: one project version, the operator path only, no switch of project while a request is in flight, and no error-message fields.
- Report exports, schemes, coefficients, calculators, HTTP routes and the column-only migrations would add only easy members.
