# Verified models of the temple management backend

A Dafny 4.11 project that models the parts of the Denumrutham backend where several tables have to stay in step, and
proves what they promise. `dafny verify dfyconfig.toml` checks everything.

| Files | What they model |
|---|---|
| `StockSweep` | the worker that releases expired stock reservations: a loop with a fault point at each await and a conditional commit |
| `StockLedger`, `SnapshotRebuild`, `StockReconciliation` | the ledger, the SQL that rebuilds daily snapshots from it, the consistency check, and how the three fit together |
| `AuditChain`, `AuditDelivery`, `AuditLoss`, `AuditPromise`, `AuditOrder`, `AuditLineage`, `AuditDatabase`, `SequenceAudit` | the hash-linked audit log: outbox worker, index registry, nightly verification, and recovery by forking a chain version |
| `Registration`, `AccountStore` | accounts, invites, temples and login as a state machine over arbitrary runs |
| `Slugs`, `SlugRepair`, `SlugSequence` | slug building and the repair script |
| `PlatformFee` | fee clamp, rounding, tax split and conversion to paise |
| `LegacyRemarks`, `LegacyBackfill`, `LegacyPayments`, `LegacyExamples`, `LegacyTables` | the scanner for legacy payment remarks and the money backfill of the procurement migration |
| `Common` | options and weighted sums over tables |

Where the program changes rows in place, a class with the same fields does so (`StockDatabase`, `InventoryTables`,
`AuditTables`, `AccountTables`, `TempleRegistry`, `ProcurementTables`); its methods are proved equal to a specification
function, and the theorems are about that function, single steps and whole runs. Answers of queries without a total
order (which expired row comes first, how equal indices are ordered, which of several latest snapshots is kept) are
parameters, and the theorems hold for every answer.

## What the proofs found

- **Sweep.** Whatever faults strike, per product: ledger added <= stock added <= quantity released, each an exact sum.
  Stock plus RESERVED is conserved exactly if no non-empty reservation failed at its stock query; the ledger replays to
  the live stock exactly if none failed between the stock update and the ledger entry. Both hold over any run of sweeps. The order of the rows only
  decides the location of a stock row that the sweep creates.
- **Rebuild.** The cost join repeats the item columns but not temple, domain and location, so an item spread over k
  ledger groups is counted k times. Releasing stock at a second location is enough to cause it.
- **Audit registry.** The registry's primary key is (temple, index), without the chain version, and its foreign key wants an
  existing temple. A temple whose logs were all written through the registry can never be recovered (the genesis block
  needs index 1 again). A new event is kept in every continuation exactly if its temple exists and was not recovered while
  the registry held an index of it. So every platform event, filed under the nil temple id by
  app/modules/audit/services/audit_service.py:96, fails three times and is deleted, although the worker has a name ready for
  it; and so are the events of a recovered temple, once version 2 reaches the first registered index. Both have concrete
  runs. The outbox always drains.
- **Terminal hash.** Under an ideal hash the last hash of an intact chain fixes every hashed column of the whole chain, and
  nothing else: actor, description and the other unhashed columns can change without changing a verdict. Through the
  genesis block the last hash of version 2 fixes the parent hash too, and with it a version 1 that is intact.
- **Expiry.** The script that should disable accounts pending for more than fourteen days calls
  `AuditService.log_event`, which the audit service does not define. The error rolls its transaction back, so it disables
  nobody: it runs through exactly if no account is due. Over every run no account is ever disabled, staff have three
  possible states instead of four, and pending staff stay pending until somebody decides.
- **Registration.** Managers get in exactly if a step of the run approved their temple. The service function of the
  unified registration would also open an active manager account without a temple, which needs no approval; exactly
  these calls make such accounts. The registration route refuses the role itself and never makes the call.
- **Slug repair.** `$` also matches before a final newline, so a shared slug that ends in one is accepted, kept by its
  first holder and turned into an invalid slug for the others; underscores survive slug building. Exactly these two cases
  leave an invalid slug behind.
- **Recovery query.** The script's comment speaks of version 1 logs; the query returns the temple's logs of all versions.
- **Migration.** The comment places the timeline inside the payment block; the scan covers the whole remarks. Payments
  and the header's total are not reconciled: they agree exactly if the header happens to state the sum of the storable
  record amounts, each rounded on its own. On SQLite an invoice can be dated by a payment that was not stored. The header
  search accepts `0.00.` as a number; parsing it stops the whole migration, on either database.

## Model

| member | source | states |
|---|---|---|
| StockSweep.LoopBalance | app/workers/background_jobs.py:36-110 | for any faults and any row order, per key: all due quantity leaves RESERVED, the part past the stock query enters stock with one version each, the part past the product query enters the ledger; a row is created only for a key without one |
| StockSweep.CommitsIffSomeCompletes | app/workers/background_jobs.py:107-116 | the session commits exactly if some expired reservation completes; otherwise nothing changes |
| StockSweep.FaultInequalities | app/workers/background_jobs.py:36-114 | 0 <= ledger added <= stock added <= quantity released, per key, for every fault pattern |
| StockSweep.ConservedIff | app/workers/background_jobs.py:39-66 | stock plus RESERVED never grows, and is conserved exactly if no non-empty expired reservation failed at its stock query |
| StockSweep.BalancesOverRounds | app/workers/background_jobs.py:36-114 | over any run of sweeps with any faults, ledger added <= stock added <= quantity released, and exactly when stock plus RESERVED is conserved and when ledger and stock grow alike |
| StockSweep.ReplayAgreesIff | app/workers/background_jobs.py:49-91 | ledger replay keeps equal to live stock exactly if no non-empty expired reservation failed between stock update and ledger entry |
| StockSweep.OrderDoesNotMatter | app/workers/background_jobs.py:24-66 | every order of the expired rows gives the same statuses, per-key stock, versions, row counts and replay, and the same commit decision |
| StockSweep.CreatedLocationDependsOnOrder | app/workers/background_jobs.py:54-64 | concrete rows for which the order decides the location of the created stock row |
| StockSweep.CreatedLocation | app/workers/background_jobs.py:54-64 | the row created for a key without one is at the location of the first reservation of that key that got past its stock query |
| StockSweep.FaultFreeSweep | app/workers/background_jobs.py:23-39 | a fault-free sweep flips exactly the expired rows and leaves none expired |
| StockSweep.SweepsCompose | app/workers/background_jobs.py:23-114 | sweeping at t1 and then at t2 >= t1 equals one sweep at t2 in statuses, stock, versions, rows and replay |
| StockSweep.SecondSweepIsIdle | app/workers/background_jobs.py:24-31 | after a sweep with any faults, a further one at the same or an earlier time finds nothing exactly if the first committed or nothing was due then |
| StockSweep.LedgerChains | app/workers/background_jobs.py:50-91 | for a key with at most one row, new ledger entries chain without a gap from the starting to the final balance, and the key keeps at most one row |
| StockSweep.EntriesDocumentReleases | app/workers/background_jobs.py:69-91 | the new ledger entries document exactly the releases that got past the product query, one each, in order, at the reservation's location or else a stock row's; stock rows stay |
| StockSweep.NewEntriesBalance | scripts/archive/db_consistency_checker.py:150-154 | no entry written by a sweep is reported as imbalanced, whatever the faults |
| StockLedger.ImbalancedMeans | scripts/archive/db_consistency_checker.py:150-154 | an entry is reported exactly if its balances differ from its change by more than 0.0001 |
| StockSweep.AuditsAreTrue | app/workers/background_jobs.py:93-106 | the audit trail names exactly the reservations released without a fault |
| StockSweep.StockDatabase.CleanupExpiredReservations | app/workers/background_jobs.py:18-116 | the loop over session rows, with early continues at the faults and the conditional commit, has exactly the specified effect and count |
| SnapshotRebuild.GroupsReplay | scripts/archive/rebuild_snapshots.py:46-57 | grouping preserves the sum of every selection of ledger rows |
| SnapshotRebuild.GroupsCover | scripts/archive/rebuild_snapshots.py:46-57 | group keys are distinct and are the ledger's keys |
| SnapshotRebuild.RebuiltContents | scripts/archive/rebuild_snapshots.py:58-98 | the exact bag of rebuilt rows: every positive group once per ledger group of its item, nothing else |
| SnapshotRebuild.RebuiltColumns | scripts/archive/rebuild_snapshots.py:46-98 | every column of a rebuilt row: the grouping columns of some entry, the positive sum under them, today, the unit cost (recorded cost, else list price, else 10; for kalavara items recorded cost, else 10), and quantity times cost |
| SnapshotRebuild.PositiveSumsAreRebuilt | scripts/archive/rebuild_snapshots.py:46-98 | every combination of the grouping columns with a positive sum has a row |
| SnapshotRebuild.JoinInflates | scripts/archive/rebuild_snapshots.py:74-98 | an item over k groups has k times its positive quantity and value |
| SnapshotRebuild.RebuildFaithfulIff | scripts/archive/rebuild_snapshots.py:42-99 | rebuilt quantity equals ledger replay exactly if no group is negative and there is one group or no positive one |
| SnapshotRebuild.CheckAfterRebuild | scripts/archive/db_consistency_checker.py:61-94 | which items the checker reports right after a rebuild, for every choice of latest snapshot |
| SnapshotRebuild.ReportedIff | scripts/archive/db_consistency_checker.py:61-94 | an item is reported exactly if its ledger sum and its latest snapshot, taken as 0 if absent, differ by more than 0.0001 |
| SnapshotRebuild.CheckReportsNegativeBalances | scripts/archive/db_consistency_checker.py:61-94 | with one group per item it reports exactly the items whose replay is below minus the tolerance |
| SnapshotRebuild.InventoryTables.RebuildSnapshots | scripts/archive/rebuild_snapshots.py:41-138 | grouping the ledger, joining the cost rows into the buffer, truncating and inserting, row by row, give the specified table and leave the ledger alone |
| StockReconciliation.SweepThenRebuildAgrees | app/workers/background_jobs.py:76-90 | for a product at one location, after a sweep and a rebuild the snapshot equals live stock exactly if that is not negative |
| StockReconciliation.SecondLocationDoubles | app/workers/background_jobs.py:82 | one release at a second location leaves seven units in stock and fourteen in the snapshot |
| AuditChain.VerdictIgnoresTies | app/modules/audit/services/chain_verification_service.py:32-42 | the verdict is the same for every order the database may give to equal indices |
| AuditChain.NextLogKeepsVerdict | app/modules/audit/services/activity_log_processor.py:173-188 | the worker's next log keeps an intact chain intact and never repairs a broken one |
| AuditChain.ProcessEntryStaysStuck | app/modules/audit/services/activity_log_processor.py:115-127 | in a temple whose next index is taken an event is never logged and is deleted after three failures |
| AuditChain.RunKeeps | app/modules/audit/services/activity_log_processor.py:115-252 | the invariant of all runs of emits, batches and recoveries from a migrated database |
| AuditChain.VerdictOverRuns | app/modules/audit/services/chain_verification_service.py:17-112 | after any run a temple passes verification exactly if it was recovered or its logs at migration time would have passed |
| AuditChain.VersionsOverRuns | alembic/versions/8b32f4ee0d89_add_audit_chain_versioning_and_registry.py:51-83 | over any run a temple has no chain versions, or version 1 sealed and version 2 active with the hash of a last version 1 log as parent |
| AuditChain.FreshTempleNeverRecovers | alembic/versions/8b32f4ee0d89_add_audit_chain_versioning_and_registry.py:86-93 | a temple without logs at migration time can never be recovered |
| AuditChain.RecoveryCommitsIff | scripts/recovery/initialize_new_chain_version.py:103-246 | when a recovery run commits, for every reachable state, including the state from which no transition to ACTIVE exists; otherwise every table is as before |
| AuditChain.RegistryOverRuns | app/modules/audit/services/audit_chain_writer.py:47-53 | over any run new logs of a temple have distinct indices and the registry lists exactly them |
| AuditChain.ForkIsCapped | app/modules/audit/models/audit_models.py:385-391 | version 2 never reaches an index that version 1 registered, and the sealed chain and version rows never change again |
| AuditChain.StuckForever | app/modules/audit/models/audit_models.py:385-391 | once the next index is taken, no run ever adds a log for the temple |
| AuditChain.TerminalHashCommits | app/modules/audit/services/activity_log_processor.py:69-95 | under a collision-free hash, equal terminal hashes mean equal length and equal hashed columns throughout |
| AuditChain.UnhashedColumnsAreFree | app/modules/audit/services/activity_log_processor.py:69-95 | changing a column outside the hash never changes a verdict |
| AuditLineage.RecoveryLeaves | scripts/recovery/initialize_new_chain_version.py:103-230 | over any run a temple has no version rows and no new incident, or exactly the sealed row, the active row with a last version 1 hash as parent, one incident with that hash, and a genesis block naming it at the head of version 2 |
| AuditLineage.ForkCommits | scripts/recovery/initialize_new_chain_version.py:177-195 | under an ideal hash the terminal hash of version 2 fixes version 2, the parent hash, and an intact version 1, whatever two runs led to it |
| AuditDelivery.LogsAreSourced | app/modules/audit/services/activity_log_processor.py:190-220 | over any run each new log is a genesis block or carries an emitted event unchanged |
| AuditOrder.BatchIsOldestFirst | app/modules/audit/services/activity_log_processor.py:48-55 | a batch is the longest beginning of the outbox of at most fifty entries |
| AuditOrder.BatchLeavesRest | app/modules/audit/services/activity_log_processor.py:48-55 | a batch leaves the entries behind the first fifty at the end of the outbox |
| AuditOrder.LoggedInOrder | app/modules/audit/services/activity_log_processor.py:108-220 | over any run, two events of a known temple that is not recovered get indices in the order of their emission, and the later one is never logged without the earlier one |
| AuditOrder.LogsAreTimed | app/modules/audit/services/activity_log_processor.py:178-215 | every new log carries the time of the batch that wrote it, every genesis block the id and time of its recovery |
| AuditDelivery.LoggedOnce | app/modules/audit/services/activity_log_processor.py:130-137 | over any run no event is logged twice, even if it is emitted again |
| AuditDelivery.DeliveredUnlessForked | app/modules/audit/services/activity_log_processor.py:115-252 | an event of a known temple is never lost, whatever happens to other events and temples, unless its temple was recovered while the registry held an index of it |
| AuditDelivery.NoEventLost | app/modules/audit/services/activity_log_processor.py:115-252 | every emitted event of a known temple that is never recovered is in the outbox or in one log, whatever happens to other events and temples |
| AuditLoss.OutboxDrains | app/modules/audit/services/activity_log_processor.py:115-128 | the outbox is empty after at most four batches per entry, whatever fails |
| AuditLoss.StuckDrops | app/modules/audit/services/activity_log_processor.py:115-127 | in a stuck temple a new event is gone after four batches without a log |
| AuditLoss.ForkLoses | app/modules/audit/models/audit_models.py:385-391 | after a recovery over a registered index r, any r new events of the temple lose one of them once the outbox is empty |
| AuditLoss.ForkDeliversIff | app/modules/audit/models/audit_models.py:385-391 | a recovered temple keeps delivering every event, in every continuation, exactly if the registry held no index of it when the recovery ran |
| AuditLoss.RefundIsLost | app/modules/audit/services/activity_log_processor.py:115-127 | a concrete run in which an event is logged, the temple recovered, and the next event deleted without a log |
| AuditPromise.UnknownIsLost | alembic/versions/8b32f4ee0d89_add_audit_chain_versioning_and_registry.py:86-93 | an event of a temple that does not exist is never logged, and gone once the outbox was worked off |
| AuditPromise.PlatformEventIsLost | app/modules/audit/services/audit_service.py:94-96 | a concrete run in which an event under the nil temple is deleted after four batches, without any recovery |
| AuditPromise.ForkSticks | app/modules/audit/models/audit_models.py:385-391 | after a recovery over a registered index r, at most r new events make the temple stuck, whatever came in between |
| AuditPromise.EventDeliveredIff | app/modules/audit/services/activity_log_processor.py:115-252 | after any run, a new event is delivered in every continuation that recovers its temple only safely, exactly if its temple exists and the run recovered it only safely |
| AuditDatabase.AuditTables.ProcessOutboxBatch | app/modules/audit/services/activity_log_processor.py:103-255 | the batch loop equals the specified processing of the first fifty entries; logs only grow, by the count returned |
| AuditDatabase.AuditTables.VerifyAuditChain | app/modules/audit/services/chain_verification_service.py:60-92 | the loop with its breaks accepts exactly an intact chain and otherwise stops at the first log that does not fit |
| AuditDatabase.AuditTables.RunRecovery | scripts/recovery/initialize_new_chain_version.py:23-246 | diagnosis, then the inserts of one transaction, or no change at all; commits exactly if something changed |
| AuditDatabase.LastIsTerminal | scripts/recovery/initialize_new_chain_version.py:51-52 | the last row of any ordered answer is a log of the highest index |
| SequenceAudit.NoBreaksIff | scripts/recovery/initialize_new_chain_version.py:60-68 | no breaks exactly if the indices are 1 to n |
| SequenceAudit.DuplicateForcesBreak | scripts/recovery/initialize_new_chain_version.py:60-81 | any duplicate index forces a break |
| SequenceAudit.DistanceToRank | scripts/recovery/initialize_new_chain_version.py:60-68 | for every ascending log, rank minus index is repeats minus skipped values, corrected for the first index |
| SequenceAudit.BreaksAreTheSuffix | scripts/recovery/initialize_new_chain_version.py:60-68 | without gaps the breaks are exactly the suffix from the first repeat, and expected minus got counts the repeats |
| SequenceAudit.ScanIndices | scripts/recovery/initialize_new_chain_version.py:56-68 | the first pass groups positions by index in order of first occurrence and collects the breaks |
| SequenceAudit.FindAnomalies | scripts/recovery/initialize_new_chain_version.py:56-81 | the two passes return exactly the breaks and exactly the indices that occur more than once |
| Registration.RunKeeps | app/services/registration_service.py:107-217 | the invariant of all runs from an empty system |
| Registration.HowAccountsChange | app/services/registration_service.py:560-642 | one step changes an account only if it is pending, and only by approval or rejection under their conditions |
| Registration.HowTemplesChange | app/services/registration_service.py:688-744 | one step changes a temple only from pending, by an approval or a rejection of it |
| Registration.HowStaffAppear | app/services/registration_service.py:113-184 | a staff account only comes from an open invite of its address, used by that step, or pending from the one approved, operational temple of its domain |
| Registration.OpenRegistrationIff | app/services/registration_service.py:84-105 | for other roles the guards come down to matching passwords and a login nobody has |
| Registration.StaffRegistrationIff | app/services/registration_service.py:113-184 | a staff registration is accepted exactly if the passwords match, the login is unused, and the invite asked for, or a temple of the domain asked for, fits |
| Registration.HowOthersAppear | app/services/registration_service.py:186-337 | every other account, and every temple, comes from a registration under its id, with exactly the stated columns |
| Registration.RefusalCodes | app/services/registration_service.py:86-184 | which answer a refused registration gets, exactly |
| Registration.TempleRefusalCodes | app/services/registration_service.py:270-316 | which answer a refused temple registration gets, exactly |
| Registration.DecisionCodes | app/services/registration_service.py:570-575 | which answer a decision on staff or on a temple gets, exactly |
| Registration.SettledForever | app/services/registration_service.py:626-642 | an account that is not pending never changes again |
| Registration.RegisteredOnce | app/modules/auth/models/auth_models.py:49-52 | a registered address can never be registered again by either registration, whatever happens to the account |
| Registration.DomainStaffTempleApproved | app/services/registration_service.py:150-184 | after any run the temple of staff who joined by domain is approved, so only rejection shuts them out |
| Registration.StaffOverRuns | app/services/registration_service.py:186-217 | after any run staff are in one of three legal combinations and have exactly one mapping, to their own temple |
| Registration.ManagersOverRuns | app/services/registration_service.py:330-337 | after any run a manager's temple exists and is mapped to the manager |
| Registration.StaffHistory | app/services/registration_service.py:560-642 | active exactly by invite or approval step, rejected exactly by rejection step, never disabled |
| Registration.PendingUntilDecided | app/services/registration_service.py:560-642 | pending exactly from joining by domain until an approval or rejection step |
| Registration.ExpiryKeepsPromiseIff | app/scripts/cleanup_pending_accounts.py:14-59 | in any reachable state the expiry script disables every account it finds exactly if it finds none |
| Registration.NeverDisabled | app/scripts/cleanup_pending_accounts.py:35-56 | over any run, with any expiry steps, no account is ever disabled or inactive |
| Registration.OldAccountStaysPending | app/scripts/cleanup_pending_accounts.py:38-54 | a concrete run in which an account older than fourteen days is still pending after the script |
| Registration.InvitesMatchStaff | app/services/registration_service.py:122-148 | used invites and invite-onboarded staff correspond one to one |
| Registration.TempleOverRuns | app/services/registration_service.py:688-744 | at most one status transition per temple, counted by version and by audit rows |
| Registration.DecidedForever | app/services/registration_service.py:805-830 | a decided temple never changes again |
| Registration.ApprovedIff | app/services/registration_service.py:694-698 | a temple is approved exactly if some step approved it while pending |
| Registration.LoginOverRuns | app/services/registration_service.py:380-460 | the login verdict on every account after any run: in exactly if not rejected and without a temple or with one that some step approved; the pending shell exactly while awaiting approval |
| Registration.NoTempleIff | app/services/registration_service.py:186-200 | a manager has no temple exactly if a call of the unified registration with that role opened the account |
| Registration.ManagerLoginIff | app/services/registration_service.py:390-431 | a manager gets in exactly if some step approved the manager's temple or such a call opened the account; under the route's guard (app/modules/auth/routes/auth.py:79-85) exactly by approval |
| Registration.StaffLoginIff | app/services/registration_service.py:389-460 | after any run staff get in exactly if not rejected and the temple was approved; pending staff only reach the pending shell |
| Registration.RefusedForever | app/services/registration_service.py:390-403 | rejected staff are refused after every continuation |
| Registration.PendingStaffIsMapped | app/services/registration_service.py:581-590 | the mapping that approval would add always exists already |
| AccountStore.AccountTables.RegisterUser | app/services/registration_service.py:66-219 | outcome and new tables of a unified registration: one account appears and no other changes, an invite is used up exactly by invited staff, a refusal changes nothing |
| AccountStore.AccountTables.CheckStaff | app/services/registration_service.py:116-184 | outcome, temple and initial status of the invite and the domain flow |
| AccountStore.AccountTables.RegisterManager | app/services/registration_service.py:252-339 | one account, one pending temple under an unused domain and their mapping appear, nothing else changes; a refusal changes nothing |
| AccountStore.AccountTables.ApproveStaffMember | app/services/registration_service.py:553-607 | exactly the pending account at that temple becomes active and approved, by someone else; its mapping exists afterwards and no other mapping changes |
| AccountStore.AccountTables.RejectStaffMember | app/services/registration_service.py:618-659 | exactly the pending account at that temple becomes rejected; no other table changes |
| AccountStore.AccountTables.ApproveTemple | app/services/registration_service.py:669-773 | exactly a pending temple becomes approved, with one version and one audit row more; no account changes |
| AccountStore.AccountTables.RejectTemple | app/services/registration_service.py:792-847 | exactly a pending temple becomes declined, with one version and one audit row more; no account changes |
| AccountStore.AccountTables.CleanupPendingAccounts | app/scripts/cleanup_pending_accounts.py:13-56 | the script ends with an error exactly if some account matches the opening query, and leaves every table as it was |
| Slugs.SlugifyShape | app/scripts/validate_slugs.py:8-13 | a slug has only slug characters and underscores, single inner dashes, and exactly the name's word characters in order |
| Slugs.SlugOfWords | app/scripts/validate_slugs.py:8-13 | the slug of words with dashes and blanks between and around them is the words in lower case joined by single dashes |
| Slugs.OtherCharactersVanish | app/scripts/validate_slugs.py:12 | any other character is dropped without a trace |
| Slugs.CharacterClasses | app/scripts/validate_slugs.py:12-13 | what counts as a word character and as a blank, and what lower case is, on ASCII |
| Slugs.SlugifyIdempotent | app/scripts/validate_slugs.py:8-13 | slugifying twice is slugifying once |
| Slugs.SlugAcceptedIff | app/scripts/validate_slugs.py:27-33 | the slug of a name is accepted exactly if the name has a word character and no underscore |
| Slugs.AcceptedMeans | app/scripts/validate_slugs.py:27-33 | exactly the non-empty runs of slug characters are accepted, with or without one newline after them |
| Slugs.CandidatesDistinct | app/scripts/validate_slugs.py:63-71 | base, base-1, base-2, ... are pairwise distinct |
| Slugs.CandidateMeans | app/scripts/validate_slugs.py:71 | the numbered candidate is the base, a dash, and the number without leading zeros |
| Slugs.MissingMeans | app/scripts/validate_slugs.py:27-29 | which texts count as missing |
| Slugs.Fresh | app/scripts/validate_slugs.py:63-73 | a first free candidate exists within the number of taken slugs plus one tries |
| Slugs.FindFresh | app/scripts/validate_slugs.py:84-94 | the search loop terminates with the first free candidate |
| SlugRepair.JobsContents | app/scripts/validate_slugs.py:29-58 | exactly the temples with a missing, invalid or later-duplicate slug are renamed, once each |
| SlugRepair.OthersKeepTheirSlug | app/scripts/validate_slugs.py:81-83 | nobody else changes; the first holder of a valid slug keeps it |
| SlugRepair.OnlyDomainsChange | app/scripts/validate_slugs.py:75-97 | names and ids stay |
| SlugRepair.NewSlugsAvoidStoredOnes | app/scripts/validate_slugs.py:67-69 | a new slug is no other temple's stored slug, so updates can reach the table in any order |
| SlugRepair.RepairedDistinct | app/scripts/validate_slugs.py:55-99 | after the run all domains are pairwise distinct |
| SlugRepair.NewSlugIsFirstFree | app/scripts/validate_slugs.py:56-97 | each new slug is the first free candidate of its base: of the slug of the name, or of the id if that is empty, from the base itself on; or of the shared slug, from the number of its earlier holders on |
| SlugSequence.JobsAreInOrder | app/scripts/validate_slugs.py:55-84 | missing slugs first, then invalid ones, each by position, then the later holders of shared slugs by the slug's first appearance |
| SlugSequence.EarlierGetsLowerNumber | app/scripts/validate_slugs.py:62-97 | of two temples with the same base the one repaired first gets the lower number, unless the other keeps its domain |
| SlugRepair.NewSlugAcceptedIff | app/scripts/validate_slugs.py:56-60 | the exact condition under which a renamed temple gets an accepted slug |
| SlugRepair.AllAcceptedIff | app/scripts/validate_slugs.py:29-99 | all slugs are accepted after the run exactly if no rebuilt name has an underscore and no shared slug ends in a newline |
| SlugRepair.SecondRunIsIdle | app/scripts/validate_slugs.py:53-106 | a second run finds nothing to do exactly if all slugs are accepted, and then changes nothing |
| SlugRepair.UnderscoreSurvives | app/scripts/validate_slugs.py:8-13 | a name with an underscore for which the repaired slug is not accepted |
| SlugRepair.SharedNewlineBreaks | app/scripts/validate_slugs.py:81-97 | two temples sharing an accepted slug that ends in a newline, of which the second gets one that is not accepted |
| SlugRepair.TempleRegistry.Classify | app/scripts/validate_slugs.py:21-37 | the classification loop yields the missing, the invalid, and the slug map in key order |
| SlugRepair.TempleRegistry.RepairFormats | app/scripts/validate_slugs.py:56-78 | the first pass performs the format jobs in order |
| SlugRepair.TempleRegistry.RenumberHolders | app/scripts/validate_slugs.py:83-99 | the inner loop numbers all holders of a slug but the first |
| SlugRepair.TempleRegistry.RenumberDuplicates | app/scripts/validate_slugs.py:81-99 | the second pass performs the duplicate jobs in key order |
| SlugRepair.TempleRegistry.Repair | app/scripts/validate_slugs.py:15-106 | the whole run, and whether it had anything to do |
| PlatformFee.RoundHalfUpMeans | app/services/platform_fee_engine.py:10-12 | rounding is to nearest, halves away from zero, odd in sign |
| PlatformFee.RoundHalfEvenMeans | app/core/payments/razorpay_provider.py:43 | Python's rounding is to nearest, halves to even |
| PlatformFee.NeverATie | app/services/platform_fee_engine.py:55 | a fee divided by 1.18 is at least 1/118 paisa from every half paisa |
| PlatformFee.FinitePrecisionIsHarmless | app/services/platform_fee_engine.py:55 | any quotient with a smaller error rounds to the same taxable value |
| PlatformFee.SplitAddsUp | app/services/platform_fee_engine.py:51-58 | taxable, CGST and SGST add up to the fee; the halves differ by at most one paisa, CGST being the larger |
| PlatformFee.HalvesAreNinePercent | app/services/notification_dispatcher.py:24 | each half is within 0.795 paisa of 9% of the taxable value |
| PlatformFee.OnePaisaMovesOnePart | app/services/platform_fee_engine.py:55-56 | one more paisa of fee moves exactly one of taxable value and tax, by one paisa |
| PlatformFee.FeeBetweenBounds | app/services/platform_fee_engine.py:42-49 | the fee lies between the rounded bounds |
| PlatformFee.FeeMeans | app/services/platform_fee_engine.py:40-49 | the fee is the amount times the rate, or the bound it lies beyond, to the nearest paisa |
| PlatformFee.TaxMeans | app/services/platform_fee_engine.py:51-60 | the taxable value is the fee divided by 1.18 to the nearest paisa, the tax the rest, the total the amount plus the fee |
| PlatformFee.FeeMonotone | app/services/platform_fee_engine.py:40-60 | the fee never falls and the total strictly grows with the amount |
| PlatformFee.FeeMonotoneIff | app/services/platform_fee_engine.py:40-49 | for a positive rate the fee is monotone exactly if the rounded bounds are in order |
| PlatformFee.ChargedExactly | app/core/payments/razorpay_provider.py:43 | an amount in whole paise is charged exactly amount plus fee, within float error below half a paisa |
| PlatformFee.InvoiceMatchesCharge | app/core/payments/razorpay_provider.py:43 | the charge above the amount is the sum of the invoice parts |
| LegacyRemarks.SplitJoin | alembic/versions/hardening_pass_004_procurement_ledger.py:136 | joining the split parts gives the text back, and no part has the separator |
| LegacyRemarks.JoinSplit | alembic/versions/hardening_pass_004_procurement_ledger.py:136 | splitting a join of separator-free parts gives the parts back |
| LegacyRemarks.ReplaceIsRejoin | alembic/versions/hardening_pass_004_procurement_ledger.py:139-147 | replacing a character is splitting at it and joining with the replacement |
| LegacyRemarks.FindAllInverts | alembic/versions/hardening_pass_004_procurement_ledger.py:133 | blocks embedded in text without opening braces are found exactly and in order |
| LegacyRemarks.FindAllDecomposes | alembic/versions/hardening_pass_004_procurement_ledger.py:133 | for every text the matches and the stretches between them make up the text, and the stretches have no match |
| LegacyRemarks.FindAllBlocks | alembic/versions/hardening_pass_004_procurement_ledger.py:133 | no match is empty or contains a closing brace |
| LegacyRemarks.ParsingInvertsFormat | alembic/versions/hardening_pass_004_procurement_ledger.py:131-137 | scan and split return exactly the documented records, field by field and in order |
| LegacyBackfill.MeansOfSpelling | alembic/versions/hardening_pass_004_procurement_ledger.py:140-142 | every spelling of an enum name, in any case and with spaces or dashes, means that name, and everything else means cash |
| LegacyPayments.DocumentedRemarks | alembic/versions/hardening_pass_004_procurement_ledger.py:131-171 | one payment per documented record, in order, and the invoice is dated by the last record |
| LegacyPayments.BlockMeans | alembic/versions/hardening_pass_004_procurement_ledger.py:135-152 | when a block is a payment, and from which fields it takes amount, means, time and note |
| LegacyPayments.AmountTextMeans | alembic/versions/hardening_pass_004_procurement_ledger.py:139 | amounts are read without their commas |
| LegacyPayments.TimeTextMeans | alembic/versions/hardening_pass_004_procurement_ledger.py:147 | a final Z is read as the offset +00:00 |
| LegacyPayments.ColumnsMean | alembic/versions/hardening_pass_004_procurement_ledger.py:117-225 | status by the literal header texts or the completed row, the two totals, and a completion time exactly for full payment |
| LegacyPayments.PlainPayments | alembic/versions/hardening_pass_004_procurement_ledger.py:174-219 | without a timeline a positive paid total becomes one cash payment at the creation time, and nothing else does |
| LegacyPayments.AbortsIff | alembic/versions/hardening_pass_004_procurement_ledger.py:117-239 | exactly which headers, amounts and timeline blocks stop the migration: an unreadable header number on both databases, and on PostgreSQL what the two-decimal columns and their constraints reject |
| LegacyPayments.UnreadableHeaderStops | alembic/versions/hardening_pass_004_procurement_ledger.py:116-120 | a header the search accepts whose balance is no number stops the migration on both databases |
| LegacyExamples.TotalsDisagree | alembic/versions/hardening_pass_004_procurement_ledger.py:117-171 | a documented invoice that is migrated with a paid total of 100 over payments of 50 |
| LegacyExamples.DatedByUnstoredPayment | alembic/versions/hardening_pass_004_procurement_ledger.py:150-173 | a documented invoice that SQLite dates by a record it did not store |
| LegacyPayments.TimelineMatchesTotalIff | alembic/versions/hardening_pass_004_procurement_ledger.py:117-171 | from documented remarks the stored payments add up to the storable record amounts, so to the paid total exactly if the header states that sum |
| LegacyPayments.DatedByStoredPaymentIff | alembic/versions/hardening_pass_004_procurement_ledger.py:150-173 | on SQLite the invoice has the date of a stored payment exactly if some record with a positive amount has the last record's date |
| LegacyPayments.MigratedIsConsistent | alembic/versions/hardening_pass_004_procurement_ledger.py:50-52 | on PostgreSQL a migrated invoice has one positive payment per attempted one, in order and equal up to half a cent, a non-negative balance and the date of its last payment |
| LegacyPayments.PaymentsMatchTotal | alembic/versions/hardening_pass_004_procurement_ledger.py:174-225 | without a timeline the payments add up to the paid total exactly if that is zero, or positive and fits its column; without a header paid plus due is the amount |
| LegacyTables.ProcurementTables.BackfillTimeline | alembic/versions/hardening_pass_004_procurement_ledger.py:135-173 | the timeline loop stores the storable payments, keeps the last date, and notices a rejected insert |
| LegacyTables.ProcurementTables.BackfillInvoice | alembic/versions/hardening_pass_004_procurement_ledger.py:101-225 | the branches of the invoice body give the specified columns and payments, and stop exactly where specified, unreadable header numbers included |
| LegacyTables.ProcurementTables.Upgrade | alembic/versions/hardening_pass_004_procurement_ledger.py:100-239 | the invoice loop migrates all invoices or none |

## Left out

- Faults of the sweep that poison the database session (a failing flush of a new stock row, an aborted transaction) and a failing final commit: the job then persists nothing.
- Several stock rows of one key are allowed; "the first" is the first in table order.
- The product name in ledger entries and the texts of remarks, audit details and reports.
- Interleaving of two sweeps, two registrations or two workers: steps are serial.
- Random snapshot ids, timestamps of inserted rows, and the drift counts the rebuild prints.
- The latest-cost subqueries: the latest recorded cost and the list price are parameters.
- The other checks of the consistency checker, which are single-row filters.
- Binary floating point: quantities and decimals are reals, fees whole paise.
- Temples that appear or disappear while the audit worker runs: its set of temples is all that exist at some point of the run.
- How the audit hash is computed: it is an arbitrary function, collision-free only where a lemma says so.
- Which of several legacy logs with the same top index the outbox worker links to: the model takes the last inserted.
- The temple's operational state, except where it refuses domain registrations or a recovery; session invalidation, notifications and broadcasts.
- A loss of the worker's in-memory failure counts at a restart.
- Email or phone detection, password hashing, OTP login, tokens and redirect targets other than the pending shell.
- Which row the login lookup returns when several match in different letter case.
- The registration route's switch for staff self-registration, and the staging tables behind its manager endpoint: the service functions are modelled as they stand.
- Account states set elsewhere (PENDING, SUSPENDED), deactivation of temples, and the creation of invites, which is an environment step.
- The case-insensitive temple name query: its answer is a parameter, as is the random domain suffix.
- State and district resolution in temple approval.
- Unicode decomposition in slug building: non-ASCII characters are dropped.
- Record amounts spelled as NaN or infinity.
- The search for the payment header in remarks, number and timestamp parsing: their answers are parameters; upper case is modelled for ASCII.
- Supplier matching in the migration.
