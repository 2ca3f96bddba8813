# Open-Flame control plane: a Dafny model

This project models the parts of the video download control plane whose correctness spans
several functions or a whole run, and proves their properties with Dafny 4.11. `dafny verify
dfyconfig.toml` checks all of it.

## What is modelled

* **Capability ledger** (`CapabilityLedger`, `CapabilityGovernance`, `CapabilityRuns`,
  `CapabilityAnswers`, `CapabilityAudit`). Approve and revoke decisions form an append-only table.
  `CapabilityLedger` admits a row exactly when the CHECKs, indexes, foreign keys and insert triggers of
  migration 10 do; `CapabilityGovernance` is the repository on top of it, with its compare-and-swap;
  `CapabilityRuns` interleaves whole runs. `CapabilityAnswers` and `CapabilityAudit` give every answer
  and verdict its condition on the tables and the host.
* **Supervisor, Worker and claim gate** (`Supervisor`, `ClaimGate`, `LifecycleEvents`). One state
  machine with a step for every call of the supervisor, the two children and any foreign run. A
  supervisor step may succeed, raise before or after its effect, or be interrupted before or after it.
  `LifecycleEvents` says what happened in a run by its events alone.
* **Schema ladder and data migrations** (`SchemaLadder`, `JobDedupe`, `DedupeOutcome`,
  `LegacySnapshots`, `LegacyColumns`, `LegacyMigration`), and the readiness cache (`ReadinessCache`).
* **Backup and restore** (`Paths`, `FileTree`, `BackupFormat`, `Backup`, `BackupTheorems`,
  `BackupRoundTrip`, `BackupRestores`, `BackupContents`, `BackupOutcomes`). Creating, loading and
  restoring are methods proved against functions; the theorems are about those functions, the last two
  modules in literal paths and conditions.
* **Assets** (`SidecarNames`, `SidecarRules`, `AssetStore`, `AssetOutcomes`,
  `AssetManifest`). The store's directories are fields; an operation may be cut short after any change
  to them.
* **Graph discoveries** (`Graph`, `GraphAudit`, `GraphRules`), with UTF-8, percent-encoding and JSON
  (`Utf8`, `Json`, `JsonCanonical`) modelled down to characters and bytes.
* **Build identity** (`BuildIdentity`).

Beside the theorems there are short lemmas, most of them named `...Exactly`, that spell a definition out
in literal texts, columns and numbers, so that a wrong constant or a forgotten case in it is noticed
although a method and its specification share it. The table lists them only where they say more.

SHA-256 is a parameter: any function to 64 lower-case hex digits (`Digest`). No such function is
injective, so a statement that rests on collision resistance names the byte strings it needs told
apart. Case folding, the table of unsafe characters and the database-and-assets audit are parameters
too. A write transaction is one atomic step.

## Where the code differs from what is said of it

* `deployment/README.md:11` says the gate stop is committed before the Worker's command channel is
  closed. `_cleanup_children` catches `Exception`, so an interrupt inside it, or any exception while
  the shutdown is announced, leaves to the `finally` that closes the channels.
  `Supervisor.ChannelClosesInOrder` holds if and only if none of these happened before, and
  `Supervisor.HazardIsReachable` reaches each of the three cases. An exception while announcing leaves before the
  inner `finally`; the channels then close when the process ends, which the model shows as the same
  release steps.
* Loading a backup compares the names on disk with the manifest after case folding
  (`backup.py:403-412`), so an added file whose name folds onto a tracked one is not reported as
  untracked. It is never restored. `BackupRestores.ChangedBackupIsExact` is the exact rule.
* `create_backup` does not apply the path check to the files it copies. A file name with a backslash,
  a path over 4096 characters or two names that fold alike are published and then refused by the load.
  `BackupRestores.CreatedLoadsExactly` is the exact rule, `BackupRestores.BackslashIsRefused` a case.
* `remove_pending_asset` removes a directory file by file. Cut short, it leaves a partial
  `assets/<id>`, or a partial staged directory that a later publication moves there.
  `AssetStore.AbsentOrComplete` says exactly when an asset is neither absent nor complete;
  `AssetStore.HalfRemovedIsReachable` and `AssetStore.HalfStagedIsReachable` reach both cases.
* A legacy group of more than 50 rows violates the new table's CHECK and rolls migration 8 back
  (`database.py:496`); a group whose ordinals are not 0..n-1 is migrated but then refused by the backup
  audit. `LegacyMigration.CommitsExactly` and `LegacyMigration.MigratedTableAuditsExactly` are the exact
  rules, `LegacyMigration.FiftyOneRowsAbort` and `LegacyMigration.MigratedThenRefused` a case of each.
* Migration 2 marks every input that owns a canceled duplicate, whether or not another job of the input
  lives on. `JobDedupe.MarkedThoughLive` is the exact rule: an input with a live job is marked exactly
  when it owned both a canceled duplicate and a kept job. With the kept job of the same source it is
  marked a duplicate of itself (`JobDedupe.InputCanDuplicateItself`), with that of another source of
  another input (`JobDedupe.LiveInputCanDuplicateAnother`); the table's unique key admits both.

## Model

| member | source | states |
|---|---|---|
| CapabilityLedger.DecisionInsertKeepsInv | src/video_download_control/database.py:1009-1147 | Whatever decision row the CHECKs, unique indexes, foreign keys and insert triggers let through, every identity keeps one unbranched chain of revisions 1..n and every decision keeps matching evidence |
| CapabilityLedger.EvidenceInsertKeepsInv | src/video_download_control/database.py:776-941 | Admitting an evidence row disturbs neither the chains nor their backing |
| CapabilityLedger.HistoryKeepsInv | src/video_download_control/database.py:746-1171 | Both hold in every ledger any sequence of admitted inserts can produce |
| CapabilityLedger.ChainTheorem | src/video_download_control/database.py:1033-1171 | In every such ledger the rows of an identity are exactly revisions 1..n, each superseding the one before; the view shows one row of a decided identity, the one with revision n |
| CapabilityLedger.ViewOfIdentity | src/video_download_control/database.py:1148-1171 | Restricted to one identity, the rows without a successor are exactly its last row, or none |
| CapabilityLedger.KeyAndIdentityAgree | src/video_download_control/database.py:1099-1118 | Over a whole run two decisions share a key exactly when they share the seven identity fields |
| CapabilityLedger.EvidenceUsedOnce | src/video_download_control/database.py:1058-1131 | Each evidence row is approved at most once and revoked at most once, and a revoke immediately follows its approve |
| CapabilityLedger.RevisionBound | src/video_download_control/database.py:719-742 | The head revision of an identity is at most twice the number of verified evidence rows for it |
| CapabilityLedger.CurrentEvidenceIsViewed | src/video_download_control/database.py:1148-1171 | An evidence id is current exactly when the view shows it with status verified |
| CapabilityLedger.NeverCurrentAgain | src/video_download_control/database.py:1058-1131 | Evidence that was current and stopped being so never becomes current again in the same run |
| CapabilityGovernance.IdentityTextInjective | src/video_download_control/capability_evidence.py:103-140 | The canonical JSON hashed into an identity key determines all seven fields |
| CapabilityGovernance.FoundHead | src/video_download_control/capability_evidence.py:520-540 | The head the repository reads is a decision of that key that nothing supersedes, whenever there is one |
| CapabilityGovernance.First | src/video_download_control/capability_evidence.py:395-401 | A lookup by one column finds a row with that value, or shows there is none; both by evidence id and by payload digest |
| CapabilityGovernance.PayloadCount | src/video_download_control/capability_evidence.py:362-390 | The sorted records are the payloads of the cells, each once, and no other |
| CapabilityGovernance.CapabilityRepository.constructor | src/video_download_control/capability_evidence.py:333-336 | A new repository starts from an empty ledger |
| CapabilityGovernance.CapabilityRepository.InsertDecision | src/video_download_control/database.py:942-1147 | An insert appends the row exactly when no CHECK, index, key or trigger objects, and otherwise names the objection and changes nothing |
| CapabilityGovernance.CapabilityRepository.InsertEvidence | src/video_download_control/database.py:776-941 | The same for evidence rows |
| CapabilityGovernance.CapabilityRepository.ApproveOrRevoke | src/video_download_control/capability_evidence.py:461-491 | Argument checks first, then one decision transaction; a refused call leaves the ledger as it was |
| CapabilityGovernance.CapabilityRepository.CheckBundle | src/video_download_control/capability_evidence.py:344-386 | The checks before the import, in their order: no results, environment, build, product version, no cells, then cell by cell |
| CapabilityGovernance.CapabilityRepository.DecideOnce | src/video_download_control/capability_evidence.py:493-627 | The transaction step by step refines one function from ledger and call to ledger and answer, rollbacks included |
| CapabilityGovernance.CapabilityRepository.ImportBundle | src/video_download_control/capability_evidence.py:337-459 | The import loop leaves the ledger and answer of importing record by record, or the old ledger when anything is refused or the build drifted |
| CapabilityRuns.HeadIsLast | src/video_download_control/capability_evidence.py:520-540 | In a governed ledger the key-based head is the last row of the identity's chain |
| CapabilityRuns.AcceptedChecks | src/video_download_control/database.py:942-1032 | The row of an accepted call satisfies every CHECK |
| CapabilityRuns.AcceptedReplacesNothing | src/video_download_control/database.py:1062-1098 | The row of an accepted call collides with no existing row |
| CapabilityRuns.AcceptedTriggers | src/video_download_control/database.py:1099-1135 | The row of an accepted call passes the revision, transition and verified-evidence triggers, the unique indexes and the foreign keys |
| CapabilityRuns.InsertMeetsNoGuard | src/video_download_control/capability_evidence.py:575-600 | From every governed ledger the insert of an accepted call trips no guard at all, unless its fresh id is taken, and then the append-only trigger |
| CapabilityRuns.WrittenRowIsCurrent | src/video_download_control/capability_evidence.py:600-620 | A row just written is the one the view shows, so the projection error cannot occur |
| CapabilityRuns.DecisionAnswers | src/video_download_control/capability_evidence.py:493-627 | A call never answers projection-unavailable, answers integrity-conflict exactly when it was accepted and its fresh id was already used, and revision-mismatch exactly when the revision read differs |
| CapabilityRuns.RunGoverned | src/video_download_control/capability_evidence.py:337-627 | Every run of imports and decisions in any order keeps the chains, the backing and the key agreement |
| CapabilityRuns.RunGrows | src/video_download_control/capability_evidence.py:337-627 | Over a run the evidence and the decision table only grow |
| CapabilityRuns.OneWriterPerRevision | src/video_download_control/capability_evidence.py:540-552 | Under any interleaving at most one call with a given evidence identity and expected revision creates a row |
| CapabilityRuns.AuditLedger | src/video_download_control/database.py:2490-2709 | The readiness loops and queries accept a ledger and the rows its view yields exactly when every evidence and decision row passes the key, route, backing, revision and transition checks and the view has no row too many or too few |
| CapabilityRuns.ReachedLedgersAreHealthy | src/video_download_control/database.py:2490-2709 | A ledger that a run reaches passes that audit exactly with a view of the last decision of each decided identity, which the view of migration 10 is |
| CapabilityRuns.ImportCounts | src/video_download_control/capability_evidence.py:380-459 | An import adds exactly as many evidence rows as it reports created, answers one id for each cell and leaves the decisions alone; a refused one adds none |
| CapabilityRuns.ImportTwice | src/video_download_control/capability_evidence.py:380-459 | Importing the same bundle again creates nothing, changes nothing and answers the same ids |
| CapabilityAnswers.HeadMeans | src/video_download_control/capability_evidence.py:530-540 | The head read by key is the one row of the identity that nothing supersedes, and there is none exactly when the identity is undecided |
| CapabilityAnswers.ApprovalRefused | src/video_download_control/capability_evidence.py:505-552 | Each refusal of an approval with its exact condition on the tables and the host: other build, unregistered route, other revision, unverified evidence, replay |
| CapabilityAnswers.ApprovalAnswers | src/video_download_control/capability_evidence.py:511-627 | Every other answer of an approval: build unavailable or drifted before or after the write, id taken, already approved, created |
| CapabilityAnswers.RevocationAnswers | src/video_download_control/capability_evidence.py:505-627 | The same for a revocation: unknown route, other revision, evidence that is not the current approval, taken id, created |
| CapabilityAnswers.UnfoundedAnswers | src/video_download_control/capability_evidence.py:501-510 | A negative revision and missing evidence are answered exactly so, and every call that creates nothing changes nothing |
| CapabilityAnswers.CreatedExactly | src/video_download_control/capability_evidence.py:501-614 | A call creates a row exactly when its evidence exists, the identity stands at the expected revision, the fresh id is unused and, for an approval, both probes are the evidence's build, the route is registered, the verdict is verified and no decision names the evidence; for a revocation, the route is known and the evidence is the current approval |
| CapabilityAnswers.CreatedRow | src/video_download_control/capability_evidence.py:568-598 | The created row column by column: id, evidence, action, reason, time, identity, status, next revision and the viewed row it supersedes |
| CapabilityAnswers.BundleAnswers | src/video_download_control/capability_evidence.py:344-386 | Each refusal of a bundle with its exact condition; of the cells the first bad one decides |
| CapabilityAnswers.ImportAnswers | src/video_download_control/capability_evidence.py:337-459 | An import succeeds exactly when the bundle is presentable, no record is refused by a guard and the build has not changed; otherwise it changes nothing and answers why |
| CapabilityAnswers.ImportedRowsStoreCells | src/video_download_control/capability_evidence.py:362-446 | Every row an import adds has, column by column, the identity, counts, rates, verdict and time of one of the cells and the digests and time of the bundle |
| CapabilityAnswers.ImportedCellsAreStored | src/video_download_control/capability_evidence.py:387-404 | After an import every cell of the bundle is stored |
| CapabilityAudit.IdentityTextReads | src/video_download_control/capability_evidence.py:103-140 | The text under an identity key parses as one object of seven fields with its keys ascending, each carrying its column |
| CapabilityAudit.HealthyExactly | src/video_download_control/database.py:2490-2709 | The audit passes exactly when every evidence row has its policy, route, key and digest, every decision row its route, key, backing, revision and transition, said of the rows, and the view shows exactly the rows nothing supersedes |
| ClaimGate.GateLaws | src/video_download_control/database.py:1181-1226 | Under the row's CHECK a claim is possible only between a successful activation and the next stop or prepare; stopping is idempotent and cannot touch another run |
| Supervisor.StepKeepsInv | src/video_download_control/local_app.py:1640-1906 | Every step of the supervisor, the control child, the Worker or a foreign run keeps the protocol invariant, whether the step succeeds, raises before or after its effect, or is interrupted |
| Supervisor.ClaimsAreEarned | src/video_download_control/local_app.py:1686-1807 | In every interleaving a job is claimed only after control was verified twice, the Worker preflight succeeded and the gate was activated for this run, and never in a check-only run |
| Supervisor.CheckOnlyNeverClaims | src/video_download_control/local_app.py:1749-1762 | A check-only run never activates the gate and its Worker never reaches the claim loop |
| Supervisor.StopIsForever | src/video_download_control/worker_repository.py:204-240 | Once a stop has committed, the gate row never again accepts claims for this run |
| Supervisor.NoClaimAfterStop | src/video_download_control/local_app.py:1089-1168 | No claim follows a committed stop |
| Supervisor.NoChildOutlivesSupervisor | src/video_download_control/local_app.py:1476-1508 | With working termination no child is alive once the supervisor is done |
| Supervisor.EscapedExactlyOnHazard | src/video_download_control/local_app.py:1866-1902 | The cleanup is left before the stop was ordered exactly when one of three exceptions occurred: while announcing the shutdown with an open gate, on an interrupt before the stop took effect, or on an interrupt before the termination that replaces a failed stop |
| Supervisor.ChannelClosesInOrder | src/video_download_control/local_app.py:1392-1508 | Once the Worker's command channel is closed, the stop had committed, had found the gate fenced, termination had been attempted or there was nothing to stop, if and only if no such exception occurred in the run |
| Supervisor.HazardIsReachable | src/video_download_control/local_app.py:1866-1902 | Each of the three exceptions is reachable in every run configuration that claims, and leads to a closed channel while the Worker may still claim |
| LifecycleEvents.StartupIsOrdered | src/video_download_control/local_app.py:1686-1810 | In every run, before a job is claimed these events happened in this order: control began to serve, a verification found it serving, the preflight succeeded, a second verification found it serving, the closed gate was opened to this run, the Worker entered its loop; before the application is online also a third verification |
| LifecycleEvents.ClaimFollowsTwoVerifications | src/video_download_control/local_app.py:1702-1748 | Before every claim there are two successful verifications, at both of which control was serving |
| LifecycleEvents.UnservedVerificationFails | src/video_download_control/local_app.py:1341-1362 | A verification that finds control not serving begins the shutdown and does nothing else |
| LifecycleEvents.HistoryIsTrue | src/video_download_control/local_app.py:1640-1906 | Each fact the history records holds exactly when the event it stands for is among the events of the run |
| LifecycleEvents.HistoryCounts | src/video_download_control/local_app.py:1686-1810 | Its two counters are the numbers of verifications passed and jobs taken |
| LifecycleEvents.ChannelClosesAfterStop | src/video_download_control/local_app.py:1392-1508 | Said of events: a closed Worker channel was preceded by the gate stop, by finding the gate fenced or by a termination, or nothing had been opened, if and only if no hazard occurred |
| LifecycleEvents.ChannelsCloseInTurn | src/video_download_control/local_app.py:1392-1508 | The Worker's channel is closed no later than control's, and both are closed when the job object is released |
| LifecycleEvents.OrderlyShutdownLeavesNone | src/video_download_control/local_app.py:1472-1508 | After a shutdown in which nothing was raised no child is alive when the pipes are released |
| SchemaLadder.CommitClimbs | src/video_download_control/database.py:1408-1561 | From a contiguous version a committing transaction either finds its step done or does exactly the next one, and never raises a wrong-version error |
| SchemaLadder.LadderIsClimbedInOrder | src/video_download_control/database.py:1342-1406 | For any number of callers and any aborts the markers stay exactly 1..v and each migration body commits once, in order |
| SchemaLadder.VersionIsMonotone | src/video_download_control/database.py:1342-1406 | The version never decreases |
| SchemaLadder.NoWrongVersion | src/video_download_control/database.py:1408-1561 | No caller meets a wrong-version error |
| SchemaLadder.ReturnedMeansLatest | src/video_download_control/database.py:1546-1561 | After a caller has returned the markers are 1..11 for good |
| SchemaLadder.LaterVersionIsRefused | src/video_download_control/database.py:1394-1397 | A database with a marker above 11 is refused and not written |
| SchemaLadder.CommitsLeadToReturn | src/video_download_control/database.py:1352-1561 | A caller none of whose transactions aborts has returned after at most five commits, whatever the other callers do |
| JobDedupe.KeeperIsFirst | src/video_download_control/database.py:277-302 | The kept job of a source is live and ranks before every other live job of it: ready first, then creation time, then id |
| JobDedupe.Tables.DeduplicateJobs | src/video_download_control/database.py:268-353 | The three updates in turn leave the jobs deduplicated, the inputs marked and every batch recounted over the new inputs |
| JobDedupe.NoJobIsLost | src/video_download_control/database.py:313-321 | Every row keeps its id, input and source; only a live duplicate changes, and it is canceled with its lease cleared |
| JobDedupe.SurvivorIsTheKeeper | src/video_download_control/database.py:277-321 | Of a source's live jobs exactly the first-ranked one stays live, unchanged |
| JobDedupe.SourceKeepsOneJob | src/video_download_control/database.py:277-321 | A source that had a live job still has one, and a ready one if it had one |
| JobDedupe.AtMostOneLiveJob | src/video_download_control/database.py:358-362 | At most one live job per source remains, so the unique index can be created |
| JobDedupe.DedupeIsIdempotent | src/video_download_control/database.py:268-321 | A second application changes no job |
| JobDedupe.InputsAreMarkedExactly | src/video_download_control/database.py:304-311 | An input is marked duplicate exactly when one of its jobs was, and then points at the input of that source's kept job |
| JobDedupe.MarkedThoughLive | src/video_download_control/database.py:304-321 | An input is marked although a job of it lives on exactly when it owned a canceled duplicate of some source and the kept job of the same or another source |
| JobDedupe.InputCanDuplicateItself | src/video_download_control/database.py:277-321 | An input that owns a discover and a download job of one source, both live, is marked a duplicate of itself although one of them lives on; the table admits these rows |
| JobDedupe.LiveInputCanDuplicateAnother | src/video_download_control/database.py:277-321 | An input whose job of one source lives on is marked a duplicate of the input that keeps another source |
| DedupeOutcome.JobsAreDeduped | src/video_download_control/database.py:277-321 | A job is canceled, without a lease and at the time of the migration, exactly when another live job of its source ranks before it; everything else in its row and every other row stays |
| DedupeOutcome.InputsAreMarked | src/video_download_control/database.py:304-311 | An input is marked exactly when a job of it ranks behind, as a duplicate of the input whose job ranks first there |
| DedupeOutcome.BatchesAreRecounted | src/video_download_control/database.py:323-353 | The three counters of a batch are the numbers of its inputs with that status after the marking, and its status is the first of them that is not zero, or the old one |
| LegacySnapshots.GroupRows | src/video_download_control/database.py:1265-1267 | The grouping loop collects, for each parent and relation type, exactly its rows in order |
| LegacySnapshots.LegacyDiscoveryRows | src/video_download_control/database.py:1249-1325 | The rows produced are one discovery per group in ascending key order and one relation per old row |
| LegacySnapshots.RowOrderDoesNotMatter | src/video_download_control/database.py:1257-1270 | The result does not depend on the order the old rows are stored in |
| LegacySnapshots.RelationsArePartitioned | src/video_download_control/database.py:1311-1324 | Every old relation appears exactly once, unchanged, in the discovery of its own parent and relation type |
| LegacySnapshots.DiscoveriesMatchGroups | src/video_download_control/database.py:1299-1310 | Each discovery carries its group's parent, relation type and size |
| LegacySnapshots.DiscoveryIdsApart | src/video_download_control/database.py:1286-1288 | Different groups get different discovery ids unless the digest collides on their two frames |
| LegacySnapshots.MembersTextReads | src/video_download_control/database.py:1270-1285 | The membership text is canonical and parses back to the members |
| LegacyColumns.DiscoveryCarriesItsGroup | src/video_download_control/database.py:1257-1310 | Each discovery snapshots all rows of one parent and relation type in ascending order; its text, hash and id are written from them, its attempt is the first one named and its time the earliest |
| LegacyColumns.RelationCarriesItsRow | src/video_download_control/database.py:1311-1324 | Each new relation has the columns of one old row, every row once, and the discovery of that row's group |
| LegacySnapshots.MigratedDiscoveryAuditsExactly | src/video_download_control/backup.py:573-688 | Against the rows the audit finds for it, a migrated discovery passes the legacy-shape checks exactly when its ordinals were 0..n-1 and every attempt was made for its parent |
| LegacyMigration.MigrateRelations | src/video_download_control/database.py:1438-1500 | The migration step by step: attempts known, discoveries and relations inserted under CHECK and unique constraints, references checked; it commits exactly when nothing objects, and then leaves the rows produced |
| LegacyMigration.CommitsExactly | src/video_download_control/database.py:489-534 | It commits exactly when every row's parent, child and attempt exist and no parent and relation type have more than 50 rows |
| LegacyMigration.QueriedIsJoined | src/video_download_control/backup.py:540-571 | The audit's ordered query finds for a migrated discovery exactly its group's rows in ordinal order |
| LegacyMigration.MigratedTableAuditsExactly | src/video_download_control/backup.py:535-688 | Over the whole table: the backup audit accepts what a committed migration leaves exactly when every group was numbered 0..n-1 by attempts made for its parent |
| LegacyMigration.MigrationAuditsExactly | src/video_download_control/database.py:1249-1325 | Migrating commits and is then accepted by the audit exactly for groups of at most 50 rows, numbered 0..n-1, with attempts of their parent |
| LegacyMigration.MigratedThenRefused | src/video_download_control/backup.py:668-686 | One relation with ordinal 1 is migrated and then refused |
| LegacyMigration.FiftyOneRowsAbort | src/video_download_control/database.py:496 | 51 relations of one parent, numbered 0..50, roll the migration back |
| ReadinessCache.Database.CachedReadiness | src/video_download_control/database.py:1641-1684 | Answer and cache after a call, for every way cookie and clock can read |
| ReadinessCache.CachedWasStored | src/video_download_control/database.py:1675-1682 | Whatever is cached was stored by an earlier call that found the same cookie before and after its audit |
| ReadinessCache.ServedIsFresh | src/video_download_control/database.py:1666-1673 | A served outcome is that of an earlier full audit; the cookie just read was in force before its first read, at every read and ever since, and the outcome was stored no longer ago than the caller allows |
| ReadinessCache.ChangeDuringAuditFails | src/video_download_control/database.py:1674-1684 | A cookie change during an audit always yields a failure and an empty cache |
| ReadinessCache.AnswersAreExact | src/video_download_control/database.py:1641-1684 | Every answer of a run and the cache after it: an invalid age is refused and changes nothing, a hit is served, any other call answers its own audit unless the cookie changed or was lost meanwhile |
| ReadinessCache.AnswersAreAudits | src/video_download_control/database.py:1641-1684 | Every outcome answered in a run is that of a full audit by this call or an earlier one, or one of two named failures |
| Decimal.ValueOfPadded | src/video_download_control/assets.py:309-314 | The four-wide zero-padded numeral of any ordinal reads back as that ordinal |
| Decimal.TextOfValue | src/video_download_control/api.py:623-624 | A numeral without a leading zero is the decimal text of its value |
| Utf8.DecodeEncoded | src/video_download_control/graph.py:181 | Strict UTF-8 decoding inverts encoding for every text, and so does decoding with replacement |
| Utf8.UnquoteQuoted | src/video_download_control/backup.py:1034 | Percent-decoding inverts `quote(key, safe="")` for every text |
| Utf8.QuoteInjective | src/video_download_control/graph.py:197 | Two texts with the same percent-encoding are equal |
| Json.ParsePrinted | src/video_download_control/graph.py:227-232 | Parsing a printed value, fractions and exponents included, gives the value back, whatever follows it in the text |
| Json.LoadsDumps | src/video_download_control/backup.py:1422-1433 | `loads` inverts `dumps` in the compact and in the indented form |
| Json.PrintInjective | src/video_download_control/capability_evidence.py:103-110 | Equal texts were printed from equal values |
| JsonCanonical.CanonicalIsCanonical | src/video_download_control/backup.py:597-602 | Sorting keys and letting the last of equal keys win always gives a canonical value |
| JsonCanonical.CanonicalTexts | src/video_download_control/backup.py:590-604 | A text survives parsing and sorted reprinting exactly when it is the print of a canonical value |
| JsonCanonical.GetCanonical | src/video_download_control/assets.py:1041-1047 | Sorting an object's keys changes no answer of `get` |
| Graph.FrameInjective | src/video_download_control/graph.py:168-183 | No two parent and key pairs share the bytes that are hashed into a child id |
| Graph.SourceIdTellsApart | src/video_download_control/graph.py:168-183 | Two child ids are equal exactly when parent and key are, unless the digest collides on the two frames |
| Graph.PostIdOfLocator | src/video_download_control/graph.py:94-100 | The URL pattern recovers the post id from every locator |
| Graph.LocatorInjective | src/video_download_control/graph.py:186-197 | Equal locators come from equal parents and keys |
| Graph.ValidMemberHasOneParent | src/video_download_control/graph.py:81-108 | A member is valid exactly when its fields are and some parent explains both its locator and its id |
| Graph.MembersJsonRoundTrip | src/video_download_control/graph.py:209-232 | The membership text parses back to the members and reprints to itself |
| Graph.SnapshotHashIdentifiesMembership | src/video_download_control/graph.py:200-206 | Two valid discoveries share a snapshot hash exactly when their ordered child, kind and selector sequences are equal, barring a collision |
| Graph.BuildDiscovery | src/video_download_control/graph.py:235-283 | The builder succeeds exactly on 1..50 valid items with distinct keys and selectors under the right parent URL; otherwise it answers the first objection |
| Graph.BuiltDiscoveryIsValid | src/video_download_control/graph.py:81-135 | What the builder returns satisfies every validator of members and discovery |
| Graph.ValidDiscoveryWasBuilt | src/video_download_control/graph.py:111-131 | Every valid discovery whose locators name one parent is what the builder makes of some items |
| GraphRules.MembershipRefusals | src/video_download_control/graph.py:209-232 | Which memberships are refused and why, in the order of the tests: count, order, stable key, selector; any other is written as its canonical text |
| GraphAudit.MemberIdentityIsExact | src/video_download_control/backup.py:1018-1044 | The member check accepts a relation exactly when some valid key yields both its locator and its source id for that parent, and that key is unique |
| GraphAudit.AuditMembers | src/video_download_control/backup.py:648-687 | The member loop accepts exactly when every member agrees with its relation row |
| GraphAudit.GroupRelations | src/video_download_control/backup.py:567-571 | The grouping loop gives every discovery its own relations in query order |
| GraphAudit.AuditDiscoveries | src/video_download_control/backup.py:535-688 | The audit accepts exactly when every discovery passes the text, shape, attempt and member checks against its own relations |
| GraphAudit.BuiltDiscoveryPassesAudit | src/video_download_control/backup.py:587-688 | Rows that mirror a built discovery pass the new-shape checks |
| GraphAudit.AcceptedRowsAreExplained | src/video_download_control/backup.py:658-669 | Conversely every relation of an accepted new-shape discovery has its key, its ordinal and the discovery's attempt |
| Paths.ValidRelativeIsExact | src/video_download_control/backup.py:1530-1541 | The path check admits exactly the texts of clean relative paths within 4096 characters, without backslash or drive colon |
| Paths.PartsOfJoined | src/video_download_control/backup.py:1535-1538 | Parsing the text of clean parts gives the parts back |
| Paths.JoinPrefix | src/video_download_control/backup.py:292-304 | A path text that continues another after a slash lies below it |
| FileTree.WalkYields | src/video_download_control/backup.py:1144-1177 | The walk yields a file exactly when the tree holds it and no stop lies on the way |
| FileTree.ManagedFilesAreExact | src/video_download_control/backup.py:1132-1179 | When the walk accepts a tree it yields every plain file outside the volatile trees and other than the database files, once, and nothing else |
| BackupContents.KeptFilesAreExact | src/video_download_control/backup.py:1138-1177 | In literal paths: a file is kept exactly when the data root holds it outside `logs`, `temporary` and `assets/.staging` and it is neither the database path nor that path with `-wal`, `-shm` or `-journal` at its end |
| BackupContents.LeftoversAreNotKept | src/video_download_control/backup.py:1164-1167 | What an interrupted staging left below `assets/.staging`, and the write-ahead log, are never kept |
| BackupContents.AcceptedRootsAreExact | src/video_download_control/backup.py:1150-1177 | A data root is accepted exactly when, outside the skipped trees, it holds nothing but files and directories, a directory where a skipped tree is expected and a file where a database file is |
| BackupFormat.JsonFileReads | src/video_download_control/backup.py:1411-1438 | A control file reads back as the object written, exactly when it is within the size limit |
| BackupFormat.HashFileReads | src/video_download_control/backup.py:349-356 | The hash record reads back as the digest |
| BackupFormat.EntryValueReads | src/video_download_control/backup.py:371-387 | A written manifest entry is read back exactly when its path is admissible |
| BackupFormat.ManifestReads | src/video_download_control/backup.py:193-205 | A written manifest has an acceptable header and lists its entries in order |
| BackupFormat.MetadataReads | src/video_download_control/backup.py:167-182 | Written metadata has an acceptable header and the recorded totals |
| Backup.CopyPayload | src/video_download_control/backup.py:131-153 | The copy loop leaves the database snapshot and every managed file in place, with an entry for each |
| Backup.CreateBackup | src/video_download_control/backup.py:82-221 | The whole creation refines one function from the source to the published directory and its result |
| Backup.VerifyEntries | src/video_download_control/backup.py:369-400 | The entry loop answers what reading, checking and verifying the entries one after the other gives, first fault included |
| Backup.LoadAndVerify | src/video_download_control/backup.py:346-432 | Loading refines one function from a directory tree to the loaded backup or the first fault |
| Backup.PlaceEntries | src/video_download_control/backup.py:287-317 | The restore loop places what placing the entries one after the other gives, and counts them |
| Backup.RestoreBackup | src/video_download_control/backup.py:233-333 | Restoring refines one function from a directory tree to the restored files or the first fault |
| BackupTheorems.ReadEntriesIsExact | src/video_download_control/backup.py:369-400 | Entries that were read are well formed, verified and distinct under case folding |
| BackupTheorems.GoodEntriesAreRead | src/video_download_control/backup.py:369-400 | Well-formed, verified, fold-distinct entries are read |
| BackupTheorems.LoadedIsConsistent | src/video_download_control/backup.py:403-432 | The entries of a loaded backup are fold-distinct and verified, every file folds onto a tracked one, and counts and sizes are the metadata's |
| BackupTheorems.ChangedBackupLoadsExactly | src/video_download_control/backup.py:346-432 | With the hash record intact a changed copy of an accepted backup is accepted exactly when no tracked file is missing or altered, nothing special was added and every further file folds onto a tracked name |
| BackupRoundTrip.ManifestListsAll | src/video_download_control/backup.py:185-192 | The sorted manifest lists exactly the payload and the metadata file |
| BackupRoundTrip.PublishedIsTracked | src/video_download_control/backup.py:183-212 | A published directory holds exactly the files its manifest vouches for |
| BackupRoundTrip.PublishedTotals | src/video_download_control/backup.py:165-177 | Recorded count and total are those of the payload, whatever the sort did |
| BackupRoundTrip.PublishedLoadsExactly | src/video_download_control/backup.py:165-212 | A published backup loads exactly when no file name holds a backslash, paths stay within 4096 characters, are fold-distinct, and entry count, manifest and metadata are within their limits; it loads as written |
| BackupRestores.PlaceAll | src/video_download_control/backup.py:289-317 | Entries that fit and stay apart are all placed with their own content, and nothing else is |
| BackupRestores.FilesDoNotClash | src/video_download_control/backup.py:308 | No file of a tree needs another one as its directory |
| BackupRestores.RestoreGivesBack | src/video_download_control/backup.py:233-333 | Restoring a created backup to a database path outside `assets` that meets no restored path gives exactly the managed files and the database snapshot, with the creation's digest, its count less the metadata file, and its total less that file's size |
| BackupRestores.RestoredFilesAreSourceFiles | src/video_download_control/backup.py:1132-1179 | Said of paths: a restored file is the database, or a source file that was not excluded, with its content |
| BackupContents.RestoredFilesAreExact | src/video_download_control/backup.py:1138-1177 | A restore gives back exactly the files kept in that sense, and the snapshot where the database goes |
| BackupRestores.CreatedLoadsExactly | src/video_download_control/backup.py:82-221 | What creation publishes loads again exactly under the same conditions |
| BackupRestores.BackslashIsRefused | src/video_download_control/backup.py:82-221 | A data root with one file whose name holds a backslash is backed up, and the backup is refused |
| BackupRestores.RestoreAgrees | src/video_download_control/backup.py:266-333 | Two trees that load alike and agree on the tracked files restore alike |
| BackupRestores.ChangedBackupIsExact | src/video_download_control/backup.py:403-412 | For a created backup: a tree with the same hash record loads exactly when it holds every file unchanged and only adds names that fold onto existing ones, and then restores to the same files |
| BackupRestores.AddedFileGoesUnnoticed | src/video_download_control/backup.py:408-412 | The exception is real: a file added as `Backup-metadata.json` goes unnoticed by the load |
| BackupOutcomes.AuditedAssetsAreExact | src/video_download_control/backup.py:154-158 | The audit of a creation sees exactly the kept files below `assets` |
| BackupOutcomes.CreationSucceedsExactly | src/video_download_control/backup.py:100-158 | A creation succeeds exactly when the database is ready at schema 11, no asset commit is pending, the data root is acceptable and the audit passes |
| BackupOutcomes.CreatedFilesAreExact | src/video_download_control/backup.py:131-221 | The published directory by name: the snapshot, every kept file below `payload/data/` and no other, and three control files, the record being the digest of the manifest |
| BackupOutcomes.LoadDemands | src/video_download_control/backup.py:346-432 | What every accepted backup has: control files within their limits, the digest record of its manifest, a manifest and metadata of the right format, and the totals of its entries |
| BackupOutcomes.PlacesExactly | src/video_download_control/backup.py:287-317 | Entries are all placed exactly when each has a destination and matches its file and no two are in each other's way; each is then at its destination and nothing else is there |
| BackupOutcomes.RestoreSucceedsExactly | src/video_download_control/backup.py:233-333 | A restore succeeds exactly when the target is inside, the backup loads, has schema 11 and fits, its entries can be placed and the audit passes on what was placed; it reports the payload's count and size |
| SidecarNames.FileNameReads | src/video_download_control/assets.py:305-314 | The reader recovers ordinal and suffix of every printed name |
| SidecarNames.StagedSidecarIsRead | src/video_download_control/api.py:589-624 | Every sidecar staging stores is accepted by the download reader with the same ordinal, kind, language and MIME type, exactly as long as its path is within 4096 characters |
| SidecarNames.ReaderInvertsPrinter | src/video_download_control/api.py:565-629 | A row is accepted with an ordinal exactly when its path is the one staging prints, up to the case of the suffix |
| SidecarNames.StoredPathsApart | src/video_download_control/assets.py:299-343 | Sidecars that differ in kind or ordinal are stored at different paths |
| SidecarNames.ValidateAuxiliaryFiles | src/video_download_control/assets.py:710-764 | The loop accepts exactly the lists whose files describe themselves, with distinct ordinals per kind, distinct identities, bounded sizes and at most 8 thumbnails and 32 captions |
| SidecarNames.AcceptedPathsDistinct | src/video_download_control/assets.py:710-764 | Accepted sidecars are stored under pairwise different paths |
| SidecarRules.TagExactly | src/video_download_control/assets.py:73-76 | A language tag is 2 to 8 letters, then groups of 1 to 8 letters or digits, joined by dashes |
| SidecarRules.DescribeExactly | src/video_download_control/assets.py:667-708 | Every description and every refusal with its condition on the name |
| SidecarRules.AcceptableExactly | src/video_download_control/assets.py:710-764 | An accepted list in literal terms: described as recorded, not the source, not too large, no file twice, no ordinal of a kind twice, at most 8 thumbnails and 32 captions |
| AssetStore.StageIdentityInvertsName | src/video_download_control/assets.py:787-798 | Recognizing a staging directory inverts naming it |
| AssetStore.StageIdentityNames | src/video_download_control/assets.py:787-798 | A recognized name is, in lower case, the name of the recognized identifiers |
| AssetStore.RemoveTreeIsExact | src/video_download_control/assets.py:628-642 | A removal cut short leaves its directory whole exactly when it had removed nothing |
| AssetStore.Store.WriteFiles | src/video_download_control/assets.py:272-402 | What is on disk after any number of write steps |
| AssetStore.Store.StageFiles | src/video_download_control/assets.py:219-436 | Staging touches one fresh staging directory and nothing else, wherever it is cut short |
| AssetStore.Store.PublishStaged | src/video_download_control/assets.py:438-492 | Publishing changes the disk by one rename or not at all; the rename may raise, and the process may die on either side of it; the answer is what validation found |
| AssetStore.Store.RemovePendingAsset | src/video_download_control/assets.py:603-644 | Removal acts on the two directories of its asset; it succeeds exactly when both are gone afterwards |
| AssetStore.Store.CleanupAttempt | src/video_download_control/assets.py:573-594 | The staging directories recognized as the attempt's are removed in scan order until one removal stops; success means exactly they are gone |
| AssetStore.ValidatePublished | src/video_download_control/assets.py:646-664 | The validation loop accepts exactly when every recorded file is there with its size and digest |
| AssetStore.StagedAssetPublishes | src/video_download_control/assets.py:464-478 | Publishing what was staged succeeds, moves the tree and nothing else |
| AssetStore.PublishIsIdempotent | src/video_download_control/assets.py:464-492 | Publishing again after success changes nothing and returns the same value |
| AssetStore.RemovalIsExact | src/video_download_control/assets.py:603-644 | Removal changes no other asset or attempt; each of its two directories, if there, is afterwards absent exactly when its removal ran to the end and as before exactly when it never began |
| AssetStore.PresentExactly | src/video_download_control/assets.py:438-492 | At every point of every run `assets/<id>` is there exactly when it was published and no removal of it has run to the end since |
| AssetStore.AbsentOrComplete | src/video_download_control/assets.py:219-644 | At any point of any run `assets/<id>` is neither absent nor the complete staged tree if and only if it was published, was not removed to the end since, and some removal of that directory, before or after it was published, began and stopped |
| AssetStore.HalfRemovedIsReachable | src/video_download_control/assets.py:603-644 | Any asset with a file can be published and then left half removed |
| AssetStore.HalfStagedIsReachable | src/video_download_control/assets.py:603-644 | Or be left half removed while staged, and then published |
| AssetOutcomes.RecognizedExactly | src/video_download_control/assets.py:787-798 | A directory name is recognized exactly when it is the two canonical identifiers joined, in whatever case |
| AssetOutcomes.TakenExactly | src/video_download_control/assets.py:573-594 | The clean-up of an attempt takes exactly the directories named after an asset and that attempt |
| AssetOutcomes.PublishesExactly | src/video_download_control/assets.py:438-492 | A publication succeeds exactly when the identifiers are safe, the directory is theirs and either the asset is only staged or only published, intact; each refusal and the disk afterwards |
| AssetOutcomes.StagingLeaves | src/video_download_control/assets.py:219-436 | What a staging leaves: nothing on a collision, all files when it ran to the end, the first files and the beginning of one when the process died, and after an exception its directory exactly when the removal stopped |
| AssetManifest.RawKeys | src/video_download_control/backup.py:1083-1112 | The manifest loop yields the set of sidecar keys exactly when every raw entry is valid and none repeats |
| AssetManifest.RowKeys | src/video_download_control/backup.py:1113-1127 | The row loop yields the set of the database's sidecar keys |
| AssetManifest.AuditAssetManifest | src/video_download_control/backup.py:1051-1129 | The audit accepts exactly when identity, original and sidecars of manifest and rows agree |
| AssetManifest.RecordKeyReads | src/video_download_control/assets.py:384-399 | A written record, read back, has exactly its own key |
| AssetManifest.WrittenManifestReads | src/video_download_control/assets.py:1041-1047 | The manifest file, fractional duration included, reads back as the canonical form of what was written |
| AssetManifest.StagedManifestPasses | src/video_download_control/backup.py:1051-1129 | A written manifest of fitting, distinct records passes the audit of rows that mirror it |
| AssetManifest.AcceptedRecordFits | src/video_download_control/assets.py:710-764 | The record of any sidecar a download may have fits the audit exactly as long as its path is within 4096 characters |
| AssetManifest.AcceptedRecordsApart | src/video_download_control/assets.py:710-764 | No two sidecars of a download are recorded under one path |
| AssetManifest.StagedAssetAuditsExactly | src/video_download_control/backup.py:1051-1129 | Whatever sidecars a download has, the manifest written for the staged asset passes the audit of rows that mirror it exactly when the file and every sidecar path are within their limits |
| BuildIdentity.ScanDirectory | src/video_download_control/build_identity.py:55-86 | Scanning a directory conserves the payload: files listed, directories pending and entries left always make up the whole |
| BuildIdentity.PayloadInventory | src/video_download_control/build_identity.py:51-88 | The worklist ends, refuses links and special files, and otherwise gives the sorted payload |
| BuildIdentity.PlainExactly | src/video_download_control/build_identity.py:56-88 | A tree is refused exactly when something that is neither file nor directory lies at some path of it |
| BuildIdentity.InventoryIsExact | src/video_download_control/build_identity.py:70-88 | The inventory holds every file but generated bytecode, once, in strictly ascending name order |
| BuildIdentity.InventoryForgetsEnumeration | src/video_download_control/build_identity.py:56-88 | Trees with the same files have the same inventory, however directories enumerate |
| BuildIdentity.NumberOfBigEndian | src/video_download_control/build_identity.py:126 | Eight big-endian bytes determine every length below 2^64 |
| BuildIdentity.FramedIsPrefixFree | src/video_download_control/build_identity.py:126-129 | A length-framed field can be read off the front of any stream |
| BuildIdentity.StreamInjective | src/video_download_control/build_identity.py:104-129 | The hashed stream determines all names and contents |
| BuildIdentity.DigestItems | src/video_download_control/build_identity.py:104-129 | The digest loop hashes exactly the framed stream of the inventory |
| BuildIdentity.PackagePayloadDigest | src/video_download_control/build_identity.py:91-129 | The package digest is that of the inventory's stream, or the error for links, an empty payload or an unframeable length |
| BuildIdentity.DigestIdentifiesPackage | src/video_download_control/build_identity.py:91-129 | Two packages share a digest exactly when they hold the same files apart from generated bytecode, barring a collision |
| BuildIdentity.ReleaseDigest | scripts/release.py:156-163 | The release loop hashes the framed stream of the package's files sorted by full name |
| BuildIdentity.ReleaseStreamAgrees | scripts/release.py:156-163 | For a release that lists the package, both implementations frame the identical stream despite different sort keys |

## Left out

- `capability_evidence.py` `snapshot`, `list_evidence`, `history`: queries that list the stored rows for display, without changing them.
- `worker_repository.py` beyond the four claim-gate operations, `worker.py`, `repository.py`, `validation.py`, workflows, editing and upload: other components.
- SQLite itself, PRAGMAs, the text comparison of trigger and index SQL in `readiness`: a transaction is one step, and only the semantic checks remain.
- CSV and archive reading of a bundle: `CapabilityGovernance` starts from its evaluated cells.
- Evidence rates are real numbers, not JSON text.
- `Json` keeps a number with a fraction or an exponent as its token: that reprinting a float normalizes its spelling is not modelled, a float equals an integer `n` only when spelled `n.0`, and `NaN` and `Infinity` are outside it.
- Text is a sequence of Unicode scalar values, so lone surrogates in file names or JSON are not represented.
- Operating-system detail: links and reparse points are `Special` nodes or a flag, and device, inode and time races, `fsync`, locks and Job handles are steps that succeed or fail.
- Directory enumeration order in the backup walk: a tree lists each directory in the order of the walk's sorted scan.
- Empty directories and the overlap checks between source, target and backup paths: a backup is a map from paths to contents.
- Restore checks a destination against what is already placed on a case-sensitive file system only.
- `assets.py` disk-space reserve, `commit_file`, `cleanup_attempt` and `list_managed_attempt_ids`; subdirectories inside an asset are part of a file's path.
- `Store.StageFiles`: an exception's own clean-up is one removal that may itself stop midway; the copy loop's chunks are represented by one arbitrary cut.
- `SidecarNames.Describe`: the `.caption.` marker is matched ignoring ASCII case; Python's `re.IGNORECASE` also equates a few non-ASCII letters.
- `SidecarNames.Registered`: stops before the file system walk that follows the checks of the stored row.
- `AssetManifest` takes `media` and `producer` as any JSON values.
- `BuildIdentity.PackagePayloadDigest`: the package does not change while it is hashed, so the drift checks around each file are absent.
- `release.py` beyond the package digest (`archive_payloads`, `file_list`, privacy and licence checks): size limits and text searches on single files.
- `Supervisor`: modelled as a state machine instead of statements, because its subject is the interleaving; logging, browser opening, JSON output and timeouts are absent, and a kill takes effect at once.
- `SchemaLadder`: the bodies of migrations 3 to 7, 9 and 11 are represented by their markers.
- `JobDedupe.InputsAreMarkedExactly`: when several jobs of one input are duplicates, the sub-query's choice is taken to be the first in table order.
- `ReadinessCache`: ages are real numbers; the full audit is any function of the contents it reads.
- `LegacyMigration`: the rebuilding of the jobs table and foreign keys of other tables; discoveries are audited in the order they were inserted, which the verdict does not depend on.
- HTTP routes, command lines, credentials, proxies and diagnostics.
