# Kamisato verification model

A Dafny model of the stateful core of Kamisato, an Arch Linux package build and
repository system: the ayato repository server, the miko build worker, the kayo
package index, and the libraries they share. `dafny verify dfyconfig.toml` checks all of it.

**Package publication (ayato).** Several server instances share one versioned object
store. Each architecture has a canonical database object, changed only by compare-and-swap,
and derived objects (files archive, signatures) that are published afterwards.

- `Packages`, `PublishGate`: packages, databases as maps, what an add or a removal does to a
  database, the guards a mutation carries, the version gates.
- `RepoTransactions`, `RepoTransactionProofs`, `RepoTransactionTheorems`, `DerivedAgreement`,
  `RemovalAlone`:
  the optimistic database transaction as a state machine. Any number of writers and
  reconcilers take turns at single store calls; every call may work, fail, or fail after it took
  effect. A theorem about `Run` is about every interleaving.
- `TransactionProgress`, `LoneTransactions`: that transactions end, for what reasons they may fail, and
  that what must succeed does.
- `ImmutableObjects`: the create-or-renew loop over one immutable object, raced by others.
- `OrphanCollection`: garbage collection interleaved with publishers, removers and time.
- `Repositories`, `UploadPlan`, `UploadPublication`, `RepositoryUpkeep`, `OrphanSweep`: one
  writer at a time, as classes and loops, with failures anywhere: the upload saga with its
  compensation, promotion, removal, and the sweep. `Repository.Valid()` is referential integrity.

**Build jobs and logs (miko).** `JobService` is the store, queue, workers and live logs at lock
granularity, with the eviction loop, and `JobOutcomes` what becomes of jobs; `JobLog` and `LogStream` are the truncating log buffer, the
server-sent-events framer that tails it, and the client that decodes the stream; `EventSources`
is a browser's reading of the same stream.

**Rebuild chains.** `DependencyGraphs` and `RebuildChain`: graph construction, topological sort,
and the worklist that finds what to rebuild after a soname changed.

**Package metadata (raiou).** `PkgInfo`, `PkgInfoCodec`, `PkgInfoRoundTrip`, `PkgInfoLaws`: the .PKGINFO
printer and parser, exactly which records survive a round trip, and what each kind of line does in any text.

**Catalog sync (kayo).** `CatalogPins`, `CatalogRuns`, `CatalogSync`: freshness, the persisted
rollback floor, and every run of processes with crashes, restarts and failed saves.

**Refresh tokens (ayato).** `RefreshTokens`, `RefreshTokenTheorems`, `RefreshHandler`: rotation and
revocation with time passing between all steps, and the handler run without interruption.

**Rate limiter (aurweb).** `RateLimiter`, `RateLimiterTheorems`: the bounded table of per-client
windows and what it guarantees over every sequence of calls.

`Collections`, `Text` and `Sorting` hold what several modules share. In state machines a `Run`
is a sequence of states with one event between neighbours, and `Allowed` or `Enabled` says
what the system, or the stated assumption, demands before an event.

## Where the code does less than it says

Each of these is a lemma with the input or the run, beside the exact condition under which the
code does meet its promise.

- A removal from "every arch database" (`ayato/service/remove.go:10-13`) drops a package built for one
  architecture from that one only: `RepositoryUpkeep.MixedListingSurvives`, `RepositoryUpkeep.RemovePkg`.
- So a move "still clears the source tier's databases" (`ayato/service/tier.go:154-155`) only for a shared
  or singly listed package: `RepositoryUpkeep.SecondBuildIsNotMoved`, `RepositoryUpkeep.PromotePackage`.
- A removal that finds nothing succeeds over stale derived objects:
  `DerivedAgreement.StaleRemovalKeepsItsArtifact`, `RemovalAlone.RemovalAloneAgrees`.
- A cancelled queued job can be built: `JobServiceTheorems.CancelledJobCanRun`, `JobServiceTheorems.CancelHoldsExactly`.
- The persisted rollback floor can fall after a failed save: `CatalogPins.FileFloorCanFall`,
  `CatalogPins.RaisingLowersFileFloor`.
- A rate limit can be exceeded by calls that take the lock out of clock order:
  `RateLimiterTheorems.OutOfOrderCallsOverrun`, `RateLimiterTheorems.LimitIsExceeded`.

## Model

| member | source | states |
|---|---|---|
| RepoTransactionTheorems.CanonicalIsFoldOfCommits | ayato/repository/repodb_transaction.go:43-86 | No lost update: in every interleaving the published package map is the start map with all committed mutations applied in commit order, and none of them was refused by the map it met. |
| RepoTransactionTheorems.EveryWriteAppliesItsMutation | ayato/repository/repodb_commit.go:29-52 | Every change of the canonical object is one writer's mutation applied to exactly the version it replaced; nothing else changes it. |
| RepoTransactionTheorems.UnmarkedFailureCommittedNothing | ayato/repository/repodb_transaction.go:43-93 | A transaction that returns an error without the committed marker changed the canonical database in none of its attempts; a reconciler never does. |
| RepoTransactionTheorems.MarkedFailureMayHaveCommitted | ayato/repository/repodb_commit.go:34-51 | Conversely, a failure with the marker means that the transaction has committed or that one of its conditional writes of the canonical object failed or lost its reply. |
| RepoTransactionTheorems.SuccessSawItsOwnCommit | ayato/repository/repodb_commit.go:63-91 | A writer returns success only when, at its last check, the live database is byte for byte what one of its own attempts committed. |
| RepoTransactionTheorems.OnlyAnticipatedEntriesChange | ayato/repository/repodb_expectations.go:49-98 | A committed conditional mutation changed an entry only where the replaced version held exactly the expected or the intended (version, file), so nobody else's package is overwritten or rolled back. |
| RepoTransactionTheorems.VersionsOnlyGoUp | ayato/service/upload_state.go:105-132 | Over every run of uploads, promotions and reconcilers no package disappears or gets an older version, although each gate read the database long before its commit. |
| RepoTransactionTheorems.GatedEffectNeverDowngrades | ayato/repository/repodb_expectations.go:49-75 | A gated batch that is accepted by any later database leaves every version there equal or newer. |
| RepoTransactionTheorems.OnlyFinalCheckSucceeds | ayato/repository/repodb_commit.go:63-91 | A writer can only succeed in its final check, with its local database live. |
| RepoTransactionProofs.CommitKeepsShared | ayato/repository/repodb_commit.go:29-52 | A conditional commit extends the history by its own mutation and keeps the fold, because equal tokens name equal contents. |
| RepoTransactionProofs.StepKeepsInv | ayato/repository/repodb_transaction.go:43-93 | Every step of every transaction keeps the shared history and what each transaction relies on. |
| PublishGate.GatedItem | ayato/service/upload_publication.go:109-123 | An item that passed a gate carries a guard on its own package, with an expected entry of no newer version. |
| PublishGate.GatedBatchNeverDowngrades | ayato/service/tier.go:100-138 | However old the gate's snapshot, a guarded batch that commits lowers no version. |
| Packages.UpsertEntry | ayato/repository/repodb_mutation.go:24-48 | After a batch add each entry is the old one or a package of that name from the batch. |
| Packages.UpsertHoldsLast | ayato/repository/repodb_mutation.go:24-48 | Of several packages of one name in a batch the last one is listed. |
| Packages.EffectTwice | ayato/repository/repodb_expectations.go:49-98 | A removal repeated over its own outcome, and a batch that names each package once and guards it by its own entry, is accepted again and changes nothing; any other batch does so or is refused. |
| Packages.RefusedExactly | ayato/repository/repodb_expectations.go:49-98 | A batch is refused exactly when for some guarded item the database lists neither what was expected under its name nor what was intended; a removal exactly when there is no database or it lists something other than expected. |
| TransactionProgress.ActProgresses | ayato/repository/repodb_transaction.go:43-86 | Every step of a running transaction brings it closer to its end; one whose call works and whose reads are still current starts no new attempt and does not fail unless its mutation is refused. |
| TransactionProgress.AdvanceAt | ayato/repository/repodb_commit.go:68-82 | Publication goes on with the next derived artifact that is in the working directory and passes over none that is. |
| TransactionProgress.TransactionsEnd | ayato/repository/repodb_transaction.go:43-72 | However others interfere, a transaction that takes enough steps of its own has succeeded or failed. |
| TransactionProgress.MostStepsIsLinear | ayato/repository/repodb_commit.go:63-120 | How many steps are enough: linear in the number of derived artifacts, with both retry limits as factors. |
| TransactionProgress.FailureHasAReason | ayato/repository/repodb_transaction.go:43-72 | In every interleaving a transaction fails only if its mutation was refused by the database it fetched, or a call failed that it does not repeat, or six times while it ran one of its calls failed or lost its reply or somebody else changed a shared object. |
| TransactionProgress.SucceedsUnlessHindered | ayato/repository/repodb_transaction.go:43-72 | So a writer that is not refused and is hindered at most five times gets through, also against other writers. |
| LoneTransactions.LoneTransactionSucceeds | ayato/repository/repodb_transaction.go:43-86 | A transaction alone, with fewer lost replies and failures of repeatable calls than attempts, succeeds and publishes what its mutation makes of the database it found. |
| LoneTransactions.LoneBatchIsPublished | ayato/repository/repodb_expectations.go:49-75 | A batch with distinct names whose guards are met ends in success with every package of it listed and every other entry as it was, also when a commit that lost its reply is retried over its own outcome. |
| LoneTransactions.LoneRemovalRemoves | ayato/repository/repodb_mutation.go:87-118 | A removal whose expected entry is the listed one, or that expects none, ends in success with the name gone and nothing else changed. |
| LoneTransactions.LoneReconcileAgrees | ayato/repository/repodb_reconcile.go:24-100 | A reconciliation alone with working calls succeeds, changes no entry, and leaves every derived object built from the database. |
| DerivedAgreement.DerivedAgreeAtQuiescence | ayato/repository/repodb_commit.go:63-120 | On an initialised architecture, once all transactions have returned success, every derived object is the one built from the final canonical database, although a stale writer may overwrite a newer one on the way. Excluded are only removals that find nothing to remove and had fetched derived archives not built from the fetched database. |
| DerivedAgreement.DerivedAgreeAfterLastFailure | ayato/repository/repodb_reconcile.go:24-100 | Failures are repaired: once a transaction, a reconciliation for one, that began after every failed one had returned and all others that did not fail have succeeded, the derived objects agree. |
| RemovalAlone.RemovalAloneAgrees | ayato/repository/repodb_mutation.go:87-118 | A removal that runs alone with every call working and returns success leaves all derived objects in agreement if and only if the package was listed or they all agreed before. |
| RemovalAlone.ActIdles | ayato/repository/repodb_mutation.go:102-111 | A removal that finds nothing, whatever its calls do, leaves the contents of the database and of every derived object as they were. |
| DerivedAgreement.StaleRemovalKeepsItsArtifact | ayato/repository/repodb_mutation.go:102-111 | The exclusion is needed: a run in which such a removal succeeds and leaves a stale derived object. |
| DerivedAgreement.ActIsSafe | ayato/repository/repodb_commit.go:93-120 | Whatever one step does to a derived object, it agrees with the canonical database afterwards or some unfinished transaction still owes its publication. |
| DerivedAgreement.PublishIsSafe | ayato/repository/repodb_commit.go:93-120 | The conditional write of one derived artifact, in all its outcomes, keeps that debt accounted for. |
| DerivedAgreement.PrepareIsSafe | ayato/repository/repodb_reconcile.go:81-100 | Local preparation by a writer or a reconciler leaves artifacts built from its own database. |
| ImmutableObjects.ContentNeverReplaced | ayato/repository/immutable.go:31-75 | A key that stays present keeps its content: it never goes directly from one content to another. |
| ImmutableObjects.SuccessPutTheBytes | ayato/repository/immutable.go:45-72 | Success is reported by the call's own conditional write, which put exactly the caller's bytes there; "created" exactly when nothing was there. |
| ImmutableObjects.ConflictSawOtherBytes | ayato/repository/immutable.go:45-72 | A refusal saw different bytes under the key and changed nothing. |
| ImmutableObjects.GivesUpForAReason | ayato/repository/immutable.go:31-75 | A call reports contention only after others changed the object as often as it has tries, and any other failure only after one of its own store calls failed or lost its reply. |
| ImmutableObjects.CallSettles | ayato/repository/immutable.go:31-75 | With working store calls and fewer than three changes by others, a call ends after at most six store calls by creating or renewing the object or by refusing other bytes. |
| OrphanCollection.CollectionSparesNamedObjects | ayato/service/reconcile.go:22-123 | In every interleaving of collections with publishers, rollbacks and removals, no object a collection deletes is named by an architecture database at that moment, given that publishers hold the lease or register what they renewed within the grace period. |
| OrphanCollection.DeletableIsUnnamed | ayato/repository/immutable.go:77-79 | An unprotected object that is unchanged since it was listed and old enough is named by no database. |
| OrphanCollection.OnlyOldIsTaken | ayato/service/reconcile.go:94-123 | Over every run a collection takes only objects whose last renewal was at least the requested age before it began. |
| OrphanCollection.ListingIsComplete | ayato/service/reconcile.go:80-86 | A listing holds exactly the directory's objects, as they are. |
| OrphanCollection.OldOrphanIsTaken | ayato/service/reconcile.go:87-123 | Where nothing changed since the databases were read and the directory was listed, an object is taken if and only if it is old enough and no database of that directory, for the shared one no database at all, lists its file. |
| OrphanCollection.StepKeepsInv | ayato/service/reconcile.go:22-153 | Every event keeps each database entry known to a working collector, or its object too young for it. |
| Repositories.EffectKeepsIntegrity | ayato/repository/repodb_mutation.go:24-118 | A mutation whose packages are stored leaves every database entry with its object. |
| Repositories.Repository.MutateDB | ayato/repository/repodb_transaction.go:43-72 | The retry loop for one writer: the database is untouched or holds the mutation's effect; success means it holds it, an unmarked failure that it is untouched, and a refusal, also after lost replies, that it holds the effect if there is one; when calls work it succeeds exactly when the mutation is accepted. |
| Repositories.Repository.StoreImmutable | ayato/repository/immutable.go:31-75 | Stores exactly the bytes, never replaces others, and reports a mismatch exactly when others are there. |
| Repositories.Repository.DeleteFile | ayato/service/remove.go:80-86 | Deleting an object no database points to keeps referential integrity; success means it is gone. |
| UploadPlan.AddArchesExact | ayato/service/upload_architecture.go:31-47 | The concrete architectures are the declared and stored ones without empty or "any" entries, each once. |
| UploadPlan.TargetsExactly | ayato/service/upload_architecture.go:75-89 | A package goes into its own architecture, an arch=any package into every declared or stored architecture other than the empty one and "any", each once. |
| UploadPlan.CommitIsBetween | ayato/service/upload_publication.go:80-107 | A committed batch differs from the snapshot only where one of its uploads is listed instead. |
| UploadPlan.CommitItemsGuardThemselves | ayato/service/upload_publication.go:109-123 | The batch of one architecture names each package once, guards it by its own entry, and names its own outcome as intended, so that a commit that lost its reply is accepted again. |
| UploadPlan.RestoreEffect | ayato/service/upload_rollback.go:91-129 | Compensating one upload gives back the captured entry where the upload is listed, and touches nothing else. |
| UploadPlan.RestoreStep | ayato/service/upload_rollback.go:66-89 | Each compensation removes one upload from the difference to the snapshot. |
| UploadPublications.UploadPublication.ResolveUpload | ayato/service/upload_state.go:83-135 | One package against all its target architectures: skipped where its version is there, otherwise planned with the entry it replaces; when reads work it is refused exactly if some target has a newer version or the batch already has the entry. |
| UploadPublications.UploadPublication.ResolveState | ayato/service/upload_state.go:26-50 | A planned batch puts each package exactly into those of its targets, in terms of the declared and stored architectures, that do not have its version yet, and only an acceptable batch is planned: served architectures, a target for every package, nowhere older, no shared entry. When reads work every acceptable batch is. |
| UploadPublications.UploadPublication.BuildArchBatches | ayato/service/upload_publication.go:68-78 | Each architecture's batch is exactly the uploads that target it, in upload order, and the architectures are in the order of their first use. |
| UploadPublications.UploadPublication.Capture | ayato/service/upload_rollback.go:27-48 | Every replaced package's object is captured before anything is written; that fails only if a read does. |
| UploadPublications.UploadPublication.StoreObjects | ayato/service/upload_publication.go:12-64 | Success means every planned object is stored; when calls work it fails only over a key that holds other bytes; databases are untouched. |
| UploadPublications.UploadPublication.CommitDatabases | ayato/service/upload_publication.go:80-107 | Architectures are committed in order; those that may have changed, ambiguous ones included, are recorded for compensation; when calls work all are committed. |
| UploadPublications.UploadPublication.RestorePackage | ayato/service/upload_rollback.go:91-129 | One compensation: whenever its transaction commits or is refused, retries and lost replies included, the entry is restored where the upload was listed and nothing else changed. |
| UploadPublications.UploadPublication.Rollback | ayato/service/upload_rollback.go:56-89 | Once every compensation has committed or was refused, every architecture's package map is the snapshot's again; integrity holds in any case. |
| UploadPublications.UploadPublication.Run | ayato/service/upload.go:74-116 | The whole saga. Success registers each package, or finds its version registered, in its own architecture, an arch=any package in every declared or stored one; what was not published before is stored byte for byte; every other entry is as it was; and the batch was acceptable. When calls work, every acceptable batch whose keys hold no other bytes succeeds. After a failure at any store, commit or name step every map is as it was once each compensation has committed or was refused, as they all do when their calls get through; entries always have their objects. |
| UploadPublications.PublishedEverything | ayato/service/upload_publication.go:80-107 | After all commits each package of the batch is registered in each of its targets, and the other entries are as before. |
| UploadPublications.CommitOutcome | ayato/service/upload_publication.go:80-107 | An attempted commit leaves its architecture at the snapshot or fully committed, and no other architecture changed. |
| RepositoryUpkeep.ResolvePackage | ayato/service/namefile.go:13-48 | A removal is about an entry of that name; when reads work, the one of the first architecture in the order asked that lists it. |
| RepositoryUpkeep.PlanRemoval | ayato/service/remove.go:15-53 | The databases a removal must change: the one of the found package's architecture, or for a shared package the requested one or all. When reads work a listing in the requested architecture decides, and without a request there is a plan exactly if some architecture lists the name. |
| RepositoryUpkeep.DropFrom | ayato/service/remove.go:55-68 | The entry is taken out of the given databases and of nothing else; when calls work only a missing database stops it. |
| RepositoryUpkeep.StillRegistered | ayato/service/remove.go:90-111 | Tells whether another architecture still lists the package, or that it could not find out. |
| RepositoryUpkeep.RemovePkg | ayato/service/remove.go:15-86 | Success means the planned databases do not list the package and its object is gone, unless it is shared and another architecture lists it. When calls work it succeeds exactly if there is a plan and each of its databases exists. Asked for all architectures, nothing is left listed if and only if the package found is shared or no other architecture lists the name. Other names' objects stay and no entry loses its object. |
| RepositoryUpkeep.MixedListingSurvives | ayato/service/remove.go:36-51 | The other case exists: with a newer build for one architecture and an older shared package in another, a removal from all architectures leaves the shared one listed. |
| RepositoryUpkeep.UnlistedIsUnreferenced | ayato/service/remove.go:69-86 | Once the databases that could reach a file do not list its package, no entry points to it. |
| RepositoryUpkeep.PromoteOneArch | ayato/service/tier.go:99-145 | The target serves the same bytes and lists the same package; no version there gets older, no other entry changes. When calls work it succeeds exactly if the target lists nothing newer and not the same version under another file, and holds no other bytes under the key. |
| RepositoryUpkeep.PromotionEffect | ayato/service/tier.go:100-138 | A promotion that passed its gate commits exactly its own entry. |
| RepositoryUpkeep.PromotePackage | ayato/service/tier.go:27-95 | Success promotes every architecture of the source that lists the package; when calls work, it is refused exactly if none does or some target may not take it or the version differs. The source changes only afterwards and only by dropping the name; under the move policy with working calls all its listings go if and only if the first one found is a shared package or the only listing. Both tiers keep integrity. |
| RepositoryUpkeep.SecondBuildIsNotMoved | ayato/service/tier.go:150-153 | The other case exists: of a package built for two architectures the removal that follows a move finds the first build and drops only that one. |
| RepositoryUpkeep.DropFromSource | ayato/service/tier.go:150-161 | Dropping a promoted package from its source tier removes no other entry and no other package's object; when calls work all listings go if and only if the first one found is shared or the only one. |
| OrphanSweep.ReconcileDir | ayato/service/reconcile.go:72-123 | An object is reported if and only if a listed file of that name is unreferenced, an artifact, of a known time and at least as old as asked, with that age; nothing else is deleted, and when deletions work everything reported in a real run is gone. |
| OrphanSweep.ReconcileOrphans | ayato/service/reconcile.go:22-70 | A full sweep reports exactly the listed artifacts of every architecture and of the shared directory that no entry there names and that are of a known, sufficient age; what it deletes is such an object and unreferenced, also when it ends early, in which case the caller gets no report; a dry run deletes nothing, and a real one with working calls everything reported. |
| OrphanSweep.AnyIsCovered | ayato/service/reconcile.go:128-153 | The shared directory's references are those of all architectures together. |
| JobLog.Buffer.Write | miko/joblog/buffer.go:31-58 | Keeps the written text, or its longest allowed prefix and the marker; always reports the whole write as accepted. |
| JobLog.Buffer.BytesFrom | miko/joblog/buffer.go:82-97 | The bytes from an offset, with negative and excessive offsets, and whether the log is closed. |
| JobLog.Buffer.Close | miko/joblog/buffer.go:61-65 | Closing keeps the bytes and stops later writes. |
| JobLog.WriteHolds | miko/joblog/buffer.go:31-58 | After any sequence of writes the buffer is a function of the concatenated text alone. |
| JobLog.CappedFillsExactly | miko/joblog/buffer.go:31-58 | A truncated log is a prefix of the text and the marker, together exactly the allowed size. |
| JobLog.TruncatedNamesTheCap | miko/joblog/buffer.go:31-58 | A truncated log ends in the marker text with the cap in it, behind the beginning of what was written; where the cap is too small the marker is cut. |
| LogStream.Tail.Emit | miko/handler/build.go:151-188 | One look at the buffer sends the whole lines that are new, leaving no complete line unsent, and the rest once the log is closed. |
| LogStream.StreamIsComplete | miko/handler/build.go:151-188 | For every interleaving of writes, closing and emits that ends with a look at the closed log, the frames are those of the final buffer's lines, once, in order, none split. |
| LogStream.StreamLogs | miko/client/build.go:173-183 | The client's scanner loop computes the specified decoding. |
| LogStream.DecodeFields | miko/client/build.go:173-183 | The client's copy is never longer than the log, and equal to it exactly when no line is too long or ends in a carriage return. |
| LogStream.ClientReceivesLog | miko/client/build.go:151-189 | Framing and decoding undo each other for a log text exactly when all its lines are clean. |
| LogStream.LogReachesClient | miko/handler/build.go:151-188 | End to end over every interleaving: the client writes the final log, line by line, exactly when all lines are clean. |
| EventSources.EveryLineIsOneMessage | miko/handler/build.go:151-188 | An event source as in section 9.2.6 of the WHATWG HTML standard, with all three line terminators, dispatches each log line as one message, in order, if and only if no line contains a carriage return. |
| EventSources.LogReachesBrowser | lumine/web/src/components/build-job-detail.tsx:62-78 | The same end to end, over every interleaving of writes, closing and emits. |
| EventSources.MessagesHaveNoReturn | lumine/web/src/components/build-job-detail.tsx:71-77 | No dispatched message contains a carriage return, whatever the stream. |
| PkgInfoRoundTrip.RoundTrip | pkg/raiou/pkginfo.go:58-152 | Parsing a printed record gives the record back if and only if its values are trimmed and free of line breaks, list entries are non-empty, xdata keys have no "=", the package type agrees with its xdata entry, and every line fits the scanner; the order of xdata keys does not matter. |
| PkgInfoRoundTrip.CleanComesBack | pkg/raiou/pkginfo_write.go:11-69 | A clean record comes back up to its package type entry, which is written from its own field only. |
| PkgInfoRoundTrip.ParsedIsClean | pkg/raiou/parse.go:26-62 | Whatever is printed, everything the parser returns is clean. |
| PkgInfoRoundTrip.ParsePrintedLine | pkg/raiou/parse.go:26-50 | A printed line parses to its key and value. |
| PkgInfoRoundTrip.PrintedLinesArePlain | pkg/raiou/pkginfo_write.go:14-25 | No value of any record can break or inject a line. |
| PkgInfoRoundTrip.ParseOfFormat | pkg/raiou/pkginfo.go:94-107 | A printed 64-bit number parses back to itself. |
| PkgInfoRoundTrip.FillKeys | pkg/raiou/pkginfo.go:77-138 | Reading the printed fields in order fills exactly those fields. |
| PkgInfoRoundTrip.AssignEntry | pkg/raiou/pkginfo.go:140-152 | A printed extra field is read back under its key, and as the package type where it is one. |
| PkgInfoCodec.Bytes | pkg/raiou/pkginfo_write.go:11-69 | The printing loops produce the specified text, with the extra keys in sorted order. |
| PkgInfoCodec.ParseKeyValues | pkg/raiou/parse.go:26-50 | The line loop returns the pairs of all lines in order, or fails on the first bad one; what a line means is stated by the laws below. |
| PkgInfoCodec.ParsePkginfo | pkg/raiou/pkginfo.go:58-138 | The parser loops compute the record, or fail, exactly as the laws below say line by line. |
| PkgInfoLaws.CommentIsIgnored | pkg/raiou/parse.go:29-32 | In any text, with text before and behind, a line whose first character that is no white space is '#' changes nothing. |
| PkgInfoLaws.BlankIsIgnored | pkg/raiou/parse.go:29-32 | Nor does a blank line. |
| PkgInfoLaws.EmptyValueIsIgnored | pkg/raiou/parse.go:42-46 | Nor does a line with a key and an empty value. |
| PkgInfoLaws.UnknownKeyIsIgnored | pkg/raiou/pkginfo.go:133-135 | Nor does a line with a key the format does not have, whatever its value. |
| PkgInfoLaws.NoEqualsFails | pkg/raiou/parse.go:33-36 | A line that is neither blank nor a comment and has no '=' makes the whole text fail. |
| PkgInfoLaws.EmptyKeyFails | pkg/raiou/parse.go:37-41 | So does a line with nothing but white space before its '='. |
| PkgInfoLaws.LongLineFails | pkg/raiou/parse.go:52-62 | So does a line that does not fit the scanner's buffer. |
| PkgInfoLaws.ScalarIsSet | pkg/raiou/pkginfo.go:83-108 | One more line with a text field sets it, with white space around key and value trimmed: the last value counts. |
| PkgInfoLaws.ListGrows | pkg/raiou/pkginfo.go:109-128 | One more line with a list field appends its value. |
| PkgInfoLaws.NumberIsSet | pkg/raiou/pkginfo.go:93-106 | One more line with a decimal number sets it, or fails if it does not fit 64 bits. |
| PkgInfoLaws.NonNumberFails | pkg/raiou/pkginfo.go:93-106 | A number field with anything but digits behind an optional sign makes the text fail. |
| PkgInfoLaws.ExtraIsSet | pkg/raiou/pkginfo.go:140-152 | One more extra field is kept under its own key, the package type a second time. |
| PkgInfoLaws.ExtraNeedsSign | pkg/raiou/pkginfo.go:140-152 | An extra field without a '=' of its own makes the text fail. |
| Sorting.SortedIsUnique | pkg/raiou/pkginfo_write.go:56-66 | A set of keys has one sorted order, so the printed text is determined by the record. |
| Sorting.SortKeys | pkg/raiou/pkginfo_write.go:56-63 | All keys of the set, each once, in strictly increasing order. |
| Sorting.LessExactly | pkg/raiou/pkginfo_write.go:56-63 | The order is lexicographic: the first difference decides, and without one the shorter text comes first. |
| RateLimiter.MemoryRateLimiter.constructor | pkg/aurweb/ratelimit.go:53-62 | An empty table with a positive bound. |
| RateLimiter.MemoryRateLimiter.Allow | pkg/aurweb/ratelimit.go:64-100 | One call: counted against an open bucket, or a new window after making room; the table stays within its bound. |
| RateLimiter.MemoryRateLimiter.Sweep | pkg/aurweb/ratelimit.go:102-108 | Drops every expired bucket and no other. |
| RateLimiter.MemoryRateLimiter.EvictOldest | pkg/aurweb/ratelimit.go:110-122 | Drops exactly one client, seen no later than any other. |
| RateLimiter.RetryBounds | pkg/aurweb/ratelimit.go:124-129 | A wait is positive, and within one window exactly for non-negative or aligned moments. |
| RateLimiter.RetryEndsWindow | pkg/aurweb/ratelimit.go:124-129 | Until the wait is over the window is the same, and at its end the next one has begun. |
| RateLimiter.IndexMonotone | pkg/aurweb/ratelimit.go:124-129 | Later moments fall into the same or a later window, also where division truncates negative times. |
| RateLimiterTheorems.TableIsBounded | pkg/aurweb/ratelimit.go:64-100 | No run makes the table outgrow its bound. |
| RateLimiterTheorems.AdmittedByBlocks | pkg/aurweb/ratelimit.go:64-100 | In whatever order calls take the lock, a client's admissions in a window are the sum of min(limit, length) over the blocks of its calls there; a block ends where it calls in another window or loses its bucket. |
| RateLimiterTheorems.BlocksCoverCalls | pkg/aurweb/ratelimit.go:64-100 | The blocks are non-empty and together are all its calls in the window. |
| RateLimiterTheorems.LimitIsExceeded | pkg/aurweb/ratelimit.go:64-100 | The limit of a window is exceeded if and only if the client makes more calls than it there and they are in more than one block. |
| RateLimiterTheorems.BucketIsLostTo | pkg/aurweb/ratelimit.go:72-79 | An open bucket is lost only in a full table to a new client's call, by eviction or by a sweep whose moment lies in a later window. |
| RateLimiterTheorems.NothingLostWhileRoom | pkg/aurweb/ratelimit.go:72-79 | While new clients find room no bucket is lost, so blocks are the client's consecutive calls in the window. |
| RateLimiterTheorems.ServedUpToLimit | pkg/aurweb/ratelimit.go:64-100 | Corollary: a client that is never evicted is admitted min(limit, calls) times in each window when calls are counted in clock order. |
| RateLimiterTheorems.EvictionIsLastResort | pkg/aurweb/ratelimit.go:73-79 | An eviction happens only in a full table of open windows and takes a client no other was silent longer than. |
| RateLimiterTheorems.SeenAtLastCall | pkg/aurweb/ratelimit.go:81-99 | Over every run a client in the table was last seen at its latest call, refused ones included. |
| RateLimiterTheorems.EvictedCalledFirst | pkg/aurweb/ratelimit.go:110-122 | An evicted client's latest call is no later than that of any other client in the table. |
| RateLimiterTheorems.OutOfOrderCallsOverrun | pkg/aurweb/ratelimit.go:69-91 | The clock is read before the lock, so two blocks in one window do happen: a run in which the limit is exceeded. |
| DependencyGraphs.TopoSort | internal/pacman/depend/toposort.go:11-53 | All nodes once, dependencies first, the smallest ready node at each step; it fails exactly when some nodes wait for each other. |
| DependencyGraphs.PickReady | internal/pacman/depend/toposort.go:32-44 | The smallest node not emitted whose count is zero, or none. |
| DependencyGraphs.CountAll | internal/pacman/depend/toposort.go:14-28 | Counters hold the number of distinct dependencies, reverse lists each dependent once. |
| DependencyGraphs.Release | internal/pacman/depend/toposort.go:46-50 | Emitting a node lowers exactly its dependents' counters by one. |
| DependencyGraphs.NoDeadlock | internal/pacman/depend/toposort.go:11-53 | A complete dependency-first order exists only if no nodes wait for each other. |
| DependencyGraphs.OrderIsDetermined | internal/pacman/depend/toposort.go:8-44 | There is one smallest-first order, so the result is deterministic. |
| RebuildChain.NewGraph | internal/pacman/depend/graph.go:13-45 | Forward and reverse edges are inverse, cover all nodes, and are the given ones without self-loops. |
| RebuildChain.FindAffected | miko/service/soname.go:197-214 | The worklist terminates with exactly the packages that transitively depend on the changed one, without itself. |
| RebuildChain.SaturatedHoldsAll | miko/service/soname.go:198-211 | A set closed under dependents of the changed package and of its members holds everything with a dependency path to it. |
| RebuildChain.Rebuilds | miko/service/soname.go:197-227 | The chain is exactly the affected packages, each once, each after every affected package it depends on; it fails exactly when something is affected and the graph cannot be ordered. |
| CatalogPins.FreshExactly | kayo/ayatosrc/verify.go:60-78 | A catalog passes if and only if it is newer than the floor, issued no longer ago than the age limit and not in the future, and has no expiry or is not past it, each up to the leeway. |
| CatalogPins.PutKeepsFloors | kayo/ayatosrc/pinstore.go:60-71 | A re-pin never lowers a floor, however its save ends. |
| CatalogPins.RaisingKeepsFloors | kayo/ayatosrc/pinstore.go:74-98 | Raising a floor lowers none, however its save ends; success means it is at least the new moment. |
| CatalogPins.RaisingLowersFileFloor | kayo/ayatosrc/pinstore.go:74-98 | Raising one floor lowers a floor in the file if and only if the floor was not high enough already, the file was replaced, and what memory now holds is below what the file held. |
| CatalogPins.PinningLowersFileFloor | kayo/ayatosrc/pinstore.go:60-98 | The same for a re-pin. |
| CatalogPins.FileFloorCanFall | kayo/ayatosrc/pinstore.go:88-98 | It does happen: a failed save that did replace the file is undone by the next save of another pin. |
| CatalogRuns.AcceptedOnlyGetNewer | kayo/ayatosrc/source_sync.go:18-87 | Over every run with restarts, crashes between persist and swap, failed saves and replayed catalogs, accepted verified catalogs have strictly increasing issue times. |
| CatalogRuns.FileFloorCoversServed | kayo/ayatosrc/source_sync.go:61-80 | The persisted floor is never below any accepted catalog, in particular the served one. |
| CatalogRuns.FileFloorFallsOnlyAfterLostSave | kayo/ayatosrc/pinstore.go:88-98 | Over every run a floor in the file falls only after the running process has had a save fail that replaced the file. |
| CatalogRuns.VerifiedExactly | kayo/ayatosrc/source_sync.go:94-108 | Between syncs, a catalog is reported as verified if and only if the served one was signature-checked, is unexpired and within the age limit. |
| CatalogRuns.StepKeepsInv | kayo/ayatosrc/source.go:46-73 | Every event, from starting a process with the persisted floors to a crash, keeps the bookkeeping consistent with the accepted history. |
| CatalogSync.PinStore.SaveOrRestore | kayo/ayatosrc/pinstore.go:88-98 | A failed save leaves the pins in memory as they were, whether or not the file was replaced. |
| CatalogSync.PinStore.PutPin | kayo/ayatosrc/pinstore.go:60-71 | The new pin with the higher of both floors. |
| CatalogSync.PinStore.RaiseFloor | kayo/ayatosrc/pinstore.go:74-86 | The floor is raised, or was high enough; success means memory has it. |
| CatalogSync.AyatoSource.ResolveKey | kayo/ayatosrc/source_sync.go:114-138 | The configured key, or, only where trust on first use is allowed, the stored one, or on first contact the offered one; otherwise none, and the pins stay as they are. A stored key is never replaced; with a working pin file an offered key is always taken on first contact. |
| CatalogSync.AyatoSource.Sync | kayo/ayatosrc/source_sync.go:18-87 | A catalog is swapped in only if it is signed under the key that must be used, newer than the floor, issued within the age limit and not in the future, not expired, each up to the leeway, and its floor is in the file; with a working pin file every such catalog is. A failure leaves the served catalog and its bookkeeping as they were. |
| RefreshTokenTheorems.OneUsableToken | ayato/handler/refresh.go:73-136 | In every interleaving of logins, refreshes and revocations with time passing, at most one token of a session family can be traded in. |
| RefreshTokenTheorems.ExpiryIsFixed | ayato/handler/refresh.go:31-68 | All refresh tokens of a family expire together: rotation never extends a session. |
| RefreshTokenTheorems.RevocationHolds | ayato/handler/refresh.go:98-135 | After a confirmed revocation only a response that had already passed its second check can still carry a live token of the family. |
| RefreshTokenTheorems.RevokedTokenIsUseless | ayato/handler/revoke.go:63-88 | And that token cannot be traded in: no session check of its family passes before it expires. |
| RefreshTokenTheorems.SpentOnce | ayato/repository/replayrepo.go:46-66 | A consumed token stays listed until it expires, so no second request consumes it. |
| RefreshTokenTheorems.LoneRefreshSucceeds | ayato/handler/refresh.go:73-136 | An unspent, unexpired token of a session that is not revoked can be traded in: after the six steps of its request the new token is usable with the same session and expiry, and the old one is not. |
| RefreshTokenTheorems.EventKeepsInv | ayato/handler/refresh.go:73-136 | Every event keeps one live token per family, tokens apart, expiries equal and revocations covering. |
| RefreshTokens.FamilyTTLs | ayato/handler/revoke.go:63-82 | Each presented family, and no other, is denied for at least the refresh lifetime and at least as long as each presented token lives. |
| RefreshHandlers.Denylist.Consume | ayato/repository/replayrepo.go:46-66 | First writer wins; an empty id or a store without atomic add is an error, a non-positive lifetime is never first; an add that reports an error may have taken effect. |
| RefreshHandlers.Denylist.Refresh | ayato/handler/refresh.go:73-136 | Uninterrupted and with store calls working, a token is traded exactly when it is unexpired, unspent, its session not revoked and its owner still allowed, and a refusal spends nothing; failing calls only refuse, or spend it without a trade. |
| RefreshHandlers.Denylist.RefreshTwice | ayato/handler/refresh.go:114-122 | The same token is never traded twice, however much later and whichever calls fail. |
| JobService.Evict | miko/service/jobstore.go:54-79 | Evicts terminal jobs only, oldest first, no more than needed, until the store is within 500 or no terminal job is left. |
| JobService.SortTerminals | miko/service/jobstore.go:58-66 | The terminal jobs, each once, by age. |
| JobServiceTheorems.PoppedOnce | miko/service/queue.go:22-46 | No job is popped twice. |
| JobServiceTheorems.LiveLogsAreOwned | miko/service/service.go:186-215 | A log is live exactly while its job is being submitted, queued or processed. |
| JobServiceTheorems.NoJobIsForgotten | miko/service/worker.go:18-114 | Every job without a terminal status is in the hands of a submission, the queue or a worker that will end it. |
| JobServiceTheorems.StoreIsBounded | miko/service/jobs.go:84-101 | After each submission the store is within its limit, or holds no more jobs than there are submissions, queue places and workers. |
| JobServiceTheorems.EvictionIsFair | miko/service/jobstore.go:54-79 | In every run eviction takes no unfinished job and none before an older finished one. |
| JobServiceTheorems.EventKeepsInv | miko/service/worker.go:18-114 | Every lock-protected step keeps each job with one owner. |
| JobServiceTheorems.CancelHoldsExactly | miko/service/jobs.go:147-177 | Over every run, a queued job that is cancelled and that no worker holds in the end was built after the cancellation if and only if a worker had registered it by then. |
| JobServiceTheorems.DoomedForGood | miko/service/worker.go:18-53 | A job cancelled before a worker registered it is never registered or built. |
| JobServiceTheorems.RegisteredIsBuilt | miko/service/worker.go:53-62 | A worker that has registered a job leaves it only by building it. |
| JobServiceTheorems.CancelledJobCanRun | miko/service/worker.go:33-62 | The second case exists: a run in which a job cancelled between a worker's look and its marking as running is built. |
| JobOutcomes.ServedInOrder | miko/service/queue.go:22-46 | Jobs are served in order: what was popped and what still waits is what the queue accepted, in that order. |
| JobOutcomes.FinishedStatusStays | miko/service/worker.go:64-94 | Once a build has ended, its job's stored status is cancelled exactly if the build was stopped or says so, failed exactly on another error, else succeeded, for as long as the job is stored. |
| JobOutcomes.TerminalHasCause | miko/service/jobs.go:94-177 | A terminal status was restored at the start, or its job's build ended that way, or the job was cancelled while queued, or a full queue refused it. |

## Left out

Assumptions

- The repository tool (`ayato/repository/repodb.go:15-20`): its native implementation is not part of this model; the archives it leaves beside a local database are taken to describe that database.
- `VerCmp` is any total preorder on versions, given by a rank; content hashes are taken to be injective.
- An ETag or object version names one content; a storage call works, fails, or fails after taking effect.
- Garbage collection uses one clock for servers and object times, publishers that hold the lease or register an object within the grace period after renewing it, and architecture lists that are complete.
- Refresh tokens: identifiers are unique, computing a lifetime and adding the entry is one step, all servers share one clock and one configured lifetime.
- Catalogs: the clock is past the longest time difference that 64 bits can hold, and age limits plus leeway stay below it; one process at a time owns the pin file, and a source's syncs do not overlap.

Weaker than the code's behaviour, or conditional

- DerivedAgreement.DerivedAgreeAtQuiescence: does not cover creating a database while another writer is active, which swallows the failed precondition (`ayato/repository/repodb_lifecycle.go:43-46`), nor runs with a removal that re-commits stale fetched archives; for such a removal alone RemovalAlone.RemovalAloneAgrees gives the exact condition.
- UploadPublications.UploadPublication.Run: does not model the package-name index, whose rollback is not exact for superseded keys (`ayato/service/upload_names.go:50-100`), or the reconciliation of derived objects inside the compensation, which does not change a canonical database.
- UploadPublications.UploadPublication.StoreObjects: does not model the detached signatures stored beside packages, because nothing in a database refers to them.
- OrphanSweep.ReconcileOrphans: a store that cannot delete conditionally, or an object renewed during the sweep, is among the calls that do not work; OrphanCollection models the renewal.
- RepositoryUpkeep.RemovePkg: integrity is claimed for one operation at a time; a remover without a lease can race an upload.
- RateLimiterTheorems.ServedUpToLimit: is the special case of calls counted in clock order; AdmittedByBlocks is the law for every order.
- LogStream.LogReachesClient: does not model a dropped connection or the limit on readers of one log.
- EventSources.LogReachesBrowser: does not model reconnection and last event identifiers, which change neither the data nor the type of a message, nor bytes that are not UTF-8.
- CatalogRuns.VerifiedExactly: says nothing for the moment between swapping the index and updating the bookkeeping, when the previous catalog's expiry still decides.

Not modelled

- Seeding new architectures and filling them with shared packages, `AllowsNewArch` policies, and validating upload inputs.
- Upstream-merged repositories: removal, promotion and collection read the repository's own databases.
- Storage backends, leases of the object store, temporary files, HTTP handlers and routing, commands, configuration and the web interface.
- Tar, gzip, signatures and token signing: their results are parameters.
- Reading a repository into a dependency graph (`miko/service/soname.go:233-264`) and submitting the chain: the graph and its edges are the input.
- Build retries, artifact sweeping, persisted job files and log snapshots in job records.
- The key-value rate limiter and several kayo processes on one pin file.
- Text that is not valid UTF-8 in .PKGINFO files; a list that is nil rather than empty.
- Overflow of 64-bit nanoseconds in the rate limiter; times there are unbounded integers.
