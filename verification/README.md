# OpsWarden: a model with proofs

OpsWarden keeps credentials for people and software agents. This project models the parts of it that carry
state or protocols and proves what they are for:

* **Rate limiter.** Per-subject token buckets in two generations and one shared bucket per operation;
  reservations over several operations that can be given back.
* **Backups.** A run, retention and start-up repair as effects on a directory and a table, with a crash
  allowed after every effect; and which backups retention keeps.
* **Release manifests.** Raw Git trees are walked and printed as a sorted list; the list is parsed, the tree
  rebuilt and its root identifier recomputed.
* **Credential store.** Requests that interleave between transactions, compare-and-set updates, idempotent
  replays, audit in the same transaction; and the page loops of credentials, assets and audit events.
* **Login.** Challenges, TOTP counters, recovery codes, sessions and password resets in any interleaving.
* **Smaller pieces.** The failure gate, base32, one-time codes, and encrypted envelopes.

Code that changes state step by step is a class or a method with loops, proved against functions on the
state; the theorems are lemmas about those functions, over every run. The files, in reading order:

| files | about |
|---|---|
| LimiterSpec, LimiterInvariant, LimiterStaging, LimiterEffects, LimiterRuns, LimiterForgetting, LimiterRoom, LimiterRetry, LimiterQueries, LimiterSkew, LimiterOutcomes, Limiter | rate limiter; the class is in Limiter |
| Order, Retention, BackupDisk, Backup | retention, the disk and its invariant, the service |
| Numerals, GitTree, GitHash, Paths, Rebuild, Manifest, Export, ExportComplete, ExportExamples | release manifests |
| Arithmetic, Timestamps, CredentialSpec, CredentialRuns, CredentialReads, CredentialReplay, CredentialOutcomes, CredentialStore, Pages | credential store and paging |
| LoginSpec, LoginRuns, LoginSafety, LoginService | login |
| FailureGate, Base32, Base32Blocks, Base32Loops, TotpCodes, Envelopes, Cryptobox | smaller pieces |

## Main results

* Whatever is called in whatever order, a bucket grants at most its capacity and its refill
  (`LimiterRuns.RateBound`), and a limiter that never reaches its bound answers every call as one that forgets
  nothing (`LimiterRoom.ForgettingIsUnobservable`). What each call answers, takes and gives back is settled by the
  levels of the buckets alone (`LimiterOutcomes.ReserveGrantsExactly`, `LimiterOutcomes.RefundLifts`).
* A denied reservation or query succeeds RetryAfter later and not before (`LimiterRetry`, `LimiterQueries`,
  `LimiterSkew`).
* A crash after any effect of a backup leaves a disk that the next start repairs: a run succeeded if its final name
  exists and failed otherwise, and no file of a retained backup is ever removed (`Backup.Service.Reconcile`,
  `BackupDisk.RetainedFilesAreNeverRemoved`). Kept are exactly the latest backups of the last days, weeks and months
  (`Retention.KeptExactly`), and pruning after every backup keeps what pruning the whole history would
  (`Retention.IncrementalPruning`).
* An accepted manifest binds every path, mode and blob of the tree it names (`Manifest.ManifestBinding`). The
  exporter accepts exactly the trees within its limits (`ExportComplete.ExportedExactly`), and what it prints the
  importer reads back (`Export.ExportThenImport`).
* An update that reads, authorizes and encrypts outside its transaction still is one atomic update of the state at
  commit (`CredentialRuns.UpdateIsAtomic`); a request commits exactly when the policy permits it on that state and its
  arguments fit (`CredentialOutcomes.CommitsExactly`, `CredentialOutcomes.NothingUnpermitted`); versions are 1 to
  current for good (`CredentialRuns.RunIsSound`); every mutation is audited once (`CredentialRuns.AuditConservesMutations`) and every plaintext before it leaves
  (`CredentialReads.ReadsAreAudited`); a key writes once while its result lives (`CredentialReplay.OneCommitPerKey`).
* Following cursors lists every row that stays visible exactly once (`Pages.TraversalIsComplete`).
* Over all login interleavings counters increase, codes and challenges work once, no login rests on a replaced
  password, and a session that was logged out or revoked is over; a login begun goes through exactly when its four
  conditions hold as it ends (`LoginSafety.LoginExactly`).

## Where a promise holds only under a condition

* Forgetting a bucket goes unnoticed when a bucket is full again within one generation. The constructor
  clamps the generation length for that, and the clamp suffices exactly when full recovery fits a Go
  `Duration` (`LimiterInvariant.ClampedTTLRecovers`).
* Waiting `RetryAfter` from the moment of the call, not from when the limiter took it to happen, is enough exactly
  when every short bucket's own wait is over by then: always if no clock was ahead of the call, never if the one
  operation asked for had its clock ahead (`LimiterSkew.RetryAfterFromTheCall`,
  `LimiterSkew.OneOperationFromTheCall`, and `LimiterSkew.QueryRetryFromTheCall` for single queries). A call half a
  second behind the clock shows it: `LimiterSkew.SkewedRetryIsTooEarly`.
* A refund leaves an operation alone whose clock is ahead of it. So a reservation given back at the moment it was made
  leaves no trace exactly where the clock was not ahead; where it was, the units stay taken
  (`LimiterOutcomes.RefundUndoesReserve`).
* The importer reads back what the exporter prints exactly when no path has more than 32 components, if no
  directory is empty. The exporter allows 33 components and empty directories, so it can print a manifest the
  importer refuses: `ExportExamples` has one repository of each kind, under any hash that tells its objects apart.
* The base32 decoder accepts more than the encoder writes: also text whose length modulo 8 is 1, 3 or 6, which no
  encoding has (`Base32.EncodeAfterDecode`), such as "A" (`Base32Loops.ForeignLengthsAreAccepted`).
* A key that was used to write can write again once its record is gone. A request under the key removes it when its
  own clock is a day past the first (`CredentialReplay.ExpiryReopensKey`). The maintenance service removes it when the
  printed expiry is at most its printed clock, and text order is time order except between an instant and the same
  instant with its last digits cut off (`Timestamps.TextOrder`), so a cleanup can come up to a second too early
  (`CredentialReplay.CleanupReopensKey`, `CredentialReplay.OneCommitPerDay`).
* A plaintext is that of the version current when it was looked up; by the time its event is logged the credential may
  have a newer version or be gone (`CredentialReads.UpdateOvertakesRead`, `CredentialReads.PurgeOvertakesRead`).
* A crash between the creation of a temporary file and the insertion of its row leaves a `.partial` file that
  no repair ever removes (`Backup.Service.RestartAfterEarlyCrash`).
* The implementation plan (docs/superpowers/plans/2026-07-28-opswarden-v1-implementation.md:1096) publishes a
  backup by an atomic rename. The code links the temporary file to its final name and then removes the
  temporary name, and the model does the same.

No hash is assumed to be injective on unbounded input, and no cipher to be unforgeable: a statement that
depends on it offers, as its only other outcome, two different strings with one digest among those hashed, or
one ciphertext that opens in two contexts. The credential store itself works with sealed values that open in
one context only; `Cryptobox` shows what that idealisation stands for.

## Model

| member | source | states |
|---|---|---|
| LimiterInvariant.WaitIsTight | internal/agents/limiter.go:376-379 | the computed wait is the least whole number of nanoseconds in which the missing tokens flow in |
| LimiterInvariant.ClampedTTLRecovers | internal/agents/limiter.go:228-246 | the clamped TTL lets an empty bucket fill up if and only if full recovery fits a Duration |
| LimiterInvariant.NewRuleExactly | internal/agents/limiter.go:199-246 | the TTL is the configured one, or fifteen minutes, if full recovery fits it, else the least in which an empty bucket fills up or the longest Duration |
| LimiterInvariant.SettlingIsUnobservable | internal/agents/limiter.go:515-518 | crediting a refill early changes no later balance, even where time differences saturate |
| LimiterInvariant.RotationKeepsLevels | internal/agents/limiter.go:533-567 | discarding generations changes the balance of no bucket at any later instant |
| LimiterInvariant.RotationKeepsInvariant | internal/agents/limiter.go:533-567 | rotation keeps both generations disjoint, bounded and due to be full in time |
| LimiterInvariant.RouteMovesNothing | internal/agents/limiter.go:569-603 | looking a bucket up moves it to the current generation with its content, and picks the subject's own bucket exactly when it exists or there is room |
| LimiterStaging.SurplusIsShared | internal/agents/limiter.go:340-350 | of the subjects without a bucket exactly those beyond the free places are charged to the shared bucket |
| LimiterStaging.StagingIsRight | internal/agents/limiter.go:324-371 | the staging loop charges every bucket one unit per distinct request that maps there, at its balance now |
| LimiterEffects.GrantDebits | internal/agents/limiter.go:390-415 | a granted reservation takes from each bucket exactly the number of distinct requests mapped to it |
| LimiterEffects.ReserveIsAllOrNothing | internal/agents/limiter.go:267-415 | a denial leaves every balance at every later instant as it was; a grant takes exactly what its receipt says |
| LimiterEffects.GrantedItemsAreLive | internal/agents/limiter.go:404-414 | every line of a fresh reservation names a bucket of the running generation that exists |
| LimiterEffects.QueryDebits | internal/agents/limiter.go:462-531 | Allow takes one token from the bucket it looks at when it allows; Check and every refusal take nothing |
| LimiterRuns.RunKeepsInvariant | internal/agents/limiter.go:137-151 | in every reachable state tokens lie in 0..capacity, the generations are disjoint and hold at most maxSubjects subjects, and a reservation of the running generation finds its bucket |
| LimiterRuns.RateBound | internal/agents/limiter.go:267-567 | over any run within [a, b], units granted less units refunded on one bucket, own or shared, are at most capacity + refill * (b - a) |
| LimiterForgetting.QuerySimulates | internal/agents/limiter.go:462-531 | Allow and Check answer like a limiter that forgets nothing, and the two states stay alike |
| LimiterForgetting.ReserveSimulates | internal/agents/limiter.go:267-415 | while there is room, Reserve has the outcome it has on a limiter that forgets nothing |
| LimiterForgetting.RefundSimulates | internal/agents/limiter.go:417-460 | refunding live reservations keeps the two limiters alike |
| LimiterRoom.FewSubjectsFindRoom | internal/agents/limiter.go:600-603 | with at most maxSubjects subjects in play nobody is charged to the shared bucket |
| LimiterRoom.ForgettingIsUnobservable | internal/agents/limiter.go:417-603 | if full recovery fits the TTL, then in every run in which the limiter never reaches its bound, however many subjects come and go, every answer equals that of a limiter that never discards a bucket |
| LimiterRoom.FewSubjectsNeverReachTheBound | internal/agents/limiter.go:600-603 | a run that mentions at most maxSubjects subjects per operation never reaches the bound |
| LimiterRoom.SubjectsMayComeAndGo | internal/agents/limiter.go:550-561 | a run with more subjects than fit need not reach the bound, as earlier ones are forgotten |
| LimiterRetry.GrantedWhenAllCanPay | internal/agents/limiter.go:372-389 | a reservation is granted if and only if every charged bucket holds its charge |
| LimiterRetry.RetryAfterIsHonest | internal/agents/limiter.go:327-389 | the same reservation is granted at any instant RetryAfter or more after the denied one took effect, through rotations and rerouting, unless the shared bucket is charged more than it can ever hold |
| LimiterRetry.RetryAfterIsTight | internal/agents/limiter.go:376-382 | without shared charges, repeating any earlier is denied again |
| LimiterSkew.RetryAfterFromTheCall | internal/agents/limiter.go:311-389 | over any number of operations without shared charges, waiting RetryAfter from the call itself suffices if and only if every short bucket's wait, counted from when its operation took the call to happen, is over by then |
| LimiterSkew.RepetitionGrantedExactly | internal/agents/limiter.go:311-389 | shared charges included, a repetition at any later moment is granted if and only if every bucket it charges has grown to its charge since the denied call |
| LimiterSkew.PunctualRetryIsGranted | internal/agents/limiter.go:311-389 | if no clock was ahead of the call, RetryAfter from the call suffices for any number of operations |
| LimiterSkew.OneOperationFromTheCall | internal/agents/limiter.go:311-319 | for one operation it suffices if and only if the clock was not ahead |
| LimiterSkew.OverchargeIsDenied | internal/agents/limiter.go:372-389 | a call that charges a bucket beyond its capacity is denied in every state |
| LimiterSkew.QueryRetryFromTheCall | internal/agents/limiter.go:479-526 | for Allow and Check, RetryAfter from the call suffices if and only if the clock was not ahead, or the subject leaves the shared bucket for a place of its own |
| LimiterSkew.SkewedRetryIsTooEarly | internal/agents/limiter.go:479-484 | a call half a second behind the clock, told to wait a second, is denied a second after it was made |
| LimiterQueries.AllowedIfTokenLeft | internal/agents/limiter.go:487-530 | Allow and Check answer yes if and only if the bucket that pays holds a token at the effective instant |
| LimiterQueries.QueryRetryIsHonest | internal/agents/limiter.go:519-526 | a denied Allow or Check is allowed when repeated RetryAfter or more later, through rotations and a change of the paying bucket |
| LimiterQueries.QueryRetryIsTight | internal/agents/limiter.go:519-526 | for a subject with its own bucket, any earlier repetition is denied again |
| LimiterQueries.OwnerStaysOwner | internal/agents/limiter.go:569-603 | a subject with a current bucket is never sent to the shared one later |
| LimiterOutcomes.ForgottenExactly | internal/agents/limiter.go:533-567 | a rotation forgets a bucket exactly when it was not used for a whole phase, or two phases have passed |
| LimiterOutcomes.PhasesKeepTheirPlaces | internal/agents/limiter.go:533-567 | a new generation begins exactly when a phase has passed, at the boundary of the phase the call falls into |
| LimiterOutcomes.QueryAnswersExactly | internal/agents/limiter.go:462-531 | Allow and Check say yes exactly when the arguments are good, the clock has not run back by a second, and the bucket that pays (the own one if remembered or there is a place) holds a token; Allow takes it, the wait is given otherwise, and no other level changes |
| LimiterOutcomes.ReserveGrantsExactly | internal/agents/limiter.go:267-415 | a reservation is granted exactly when it is well formed, no clock ran back by a second, every subject has a token left, and each shared bucket holds one for every subject beyond the places |
| LimiterOutcomes.RefundLifts | internal/agents/limiter.go:417-460 | a refund lifts every bucket to the smaller of its capacity and its level plus the units its lines of the running generation name; an operation whose clock is ahead is not touched |
| LimiterOutcomes.GivingBackLifts | internal/agents/limiter.go:111-123 | in every reachable state giving back an unresolved reservation does that to every bucket, and resolves that reservation only |
| LimiterOutcomes.RefundUndoesReserve | internal/agents/limiter.go:267-460 | granted and given back at one moment, a reservation leaves every level at every later instant as it was, unless the clock was ahead; then what was taken stays taken |
| LimiterOutcomes.ResolvedForGood | internal/agents/limiter.go:102-123 | what was committed or given back is never given back again, whatever is called in between; a commit gives nothing back |
| LimiterObject.Limiter.constructor | internal/agents/limiter.go:153-247 | a new limiter has every operation's bounded rule with its clamped TTL, and no bucket |
| LimiterObject.Limiter.Allow | internal/agents/limiter.go:249-255 | decides and spends as the specification of a query does |
| LimiterObject.Limiter.Check | internal/agents/limiter.go:259-265 | decides as the specification does without spending |
| LimiterObject.Limiter.Decide | internal/agents/limiter.go:462-531 | the in-place steps of a query have the specified effect and answer |
| LimiterObject.Limiter.RotateGeneration | internal/agents/limiter.go:533-567 | the maps are swapped or dropped as specified |
| LimiterObject.Limiter.SubjectBucket | internal/agents/limiter.go:569-583 | finds a subject's bucket and migrates it |
| LimiterObject.Limiter.OverflowBucket | internal/agents/limiter.go:585-598 | finds the shared bucket and migrates it |
| LimiterObject.Limiter.Deduplicate | internal/agents/limiter.go:275-289 | the first loop refuses bad requests and keeps the distinct ones in order |
| LimiterObject.Limiter.EffectiveTimes | internal/agents/limiter.go:306-320 | the second loop reads every operation's clock or stops at the first roll-back |
| LimiterObject.Limiter.StageEach | internal/agents/limiter.go:324-371 | the staging loop with its index map computes the specified staging |
| LimiterObject.Limiter.LongestWaitOf | internal/agents/limiter.go:372-383 | the deciding loop finds the longest wait |
| LimiterObject.Limiter.SpendEach | internal/agents/limiter.go:390-403 | the paying loop writes every staged bucket |
| LimiterObject.Limiter.Reserve | internal/agents/limiter.go:267-415 | the whole call has the specified outcome and state; a denial gives no reservation |
| LimiterObject.Limiter.RefundMany | internal/agents/limiter.go:417-460 | the loop credits exactly the lines the specification credits |
| LimiterObject.Reservation.Refund | internal/agents/limiter.go:111-123 | a reservation is given back at most once and never after Commit |
| Retention.SelectBuckets | internal/backup/service.go:650-668 | the loop adds to the kept set the choice of the first run of each of the first `limit` buckets of a newest-first list, early return included |
| Retention.RetentionSet | internal/backup/service.go:628-648 | sorting and three passes yield the kept set, whose members Retention.KeptExactly tells |
| Retention.KeptExactly | internal/backup/service.go:628-668 | a backup is kept exactly when it is the latest of its day, week or month, the larger identifier winning a tie, and fewer than 7 days, 4 weeks or 6 months have one that completed after it |
| Retention.ChoiceIsLatest | internal/backup/service.go:650-668 | a chosen backup is the latest of its bucket; a bucket nothing is chosen from has none later than a chosen one; buckets are passed over only if the limit is used up |
| Retention.LatestIsKept | internal/backup/service.go:628-648 | a backup that no other completed after is always kept |
| Retention.ChoiceIsLimited | internal/backup/service.go:656-667 | a selection holds at most `limit` runs |
| Retention.IncrementalPruning | internal/backup/service.go:576-581 | pruning after each backup keeps what pruning the full history would, for additions that completed later (or at the same time under a larger identifier); pruning is idempotent |
| Retention.KeptFromFewer | internal/backup/service.go:576-581 | what a history keeps is kept of any part of it |
| Retention.KeptIsBounded | internal/backup/service.go:628-648 | what is kept is part of the history and at most 15 backups |
| BackupDisk.RecordsAreForGood | internal/backup/service.go:967-991 | what a success recorded is rewritten by no later effect |
| BackupDisk.RetainedFilesAreNeverRemoved | internal/backup/service.go:582-617 | at every instant a retained success has its file with the recorded checksum and size, and a file disappears only while its row says retired |
| Backup.Service.Create | internal/backup/service.go:1219-1244 | a temporary file is created only under a free name |
| Backup.Service.RemoveOwned | internal/backup/service.go:1371-1386 | a name is removed only with the expected link count, and only if no retained row needs it |
| Backup.Service.RecordStart | internal/backup/service.go:959-965 | a running row is inserted, or one that exists is left alone |
| Backup.Service.RecordSuccess | internal/backup/service.go:967-991 | only a running row succeeds, with the checksum and size of a verified file |
| Backup.Service.RecordFailure | internal/backup/service.go:993-1011 | only a running row fails |
| Backup.Service.Verify | internal/backup/service.go:1049-1106 | without faults, a file passes if and only if it has one link, a size within bounds, the expected digest and an intact database |
| Backup.Service.OnlineCopy | internal/backup/service.go:236-324 | the loop of bounded writes stores exactly the normalised snapshot, or a failed write leaves only the temporary file touched |
| Backup.Service.PublishLink | internal/backup/service.go:1278-1312 | publishing replaces no existing name |
| Backup.Service.Run | internal/backup/service.go:123-234 | whatever fails, the invariant holds after every effect and other runs are untouched; success means the snapshot is stored, verified and recorded; without faults a bad snapshot leaves no file and a failed row |
| Backup.Service.EndRun | internal/backup/service.go:867-957 | a run cut off by a crash succeeded if its final name exists and failed otherwise |
| Backup.Service.ReconcileRunning | internal/backup/service.go:867-957 | no running row is left, and each ended as its final name says |
| Backup.Service.ReconcileRetired | internal/backup/service.go:778-865 | a retired row whose file is still there is retained again |
| Backup.Service.AdoptOne | internal/backup/service.go:719-774 | a sound file no row knows gets a row, a row still running ends as its file verifies, and no other row moves |
| Backup.Service.Adopt | internal/backup/service.go:705-776 | after the scan every sound file has a row |
| Backup.Service.Reconcile | internal/backup/service.go:705-776 | from any crash state: no running row and no half-finished retirement is left, nothing else changes, and a second call writes nothing at all |
| Backup.Service.VerifyAll | internal/backup/service.go:545-575 | the first loop notes a verdict per retained backup and moves nothing else; listed are, once each, backups that passed |
| Backup.Service.Retire | internal/backup/service.go:582-617 | the row retires before its file goes; a file that stays brings the row back |
| Backup.Service.ApplyRetention | internal/backup/service.go:527-626 | complete means exactly the kept backups are retained, each verified, and all others lost their file; whatever fails, every kept backup stays retained, and so one that no other completed after |
| Backup.Service.Open | internal/backup/service.go:82-107 | a service opened on any crash state starts repaired and quiet |
| Backup.Service.RestartAfterEarlyCrash | internal/backup/service.go:867-957 | a temporary file created just before a crash survives any number of later starts |
| GitTree.ReadRecords | deploy/release_export.py:260-271 | the cursor loop ends and reads exactly the records of the specification, or finds the object malformed |
| GitTree.ParseAfterPrint | deploy/release_export.py:260-271 | a printed tree parses to its records, for any identifier bytes |
| GitTree.PrintAfterParse | deploy/release_export.py:260-271 | only printed trees parse |
| GitTree.CanonicalMeansAscending | deploy/release_export.py:272-277 | the order test passes if and only if keys, with the directory slash, never decrease |
| GitHash.PreimageIsInjective | deploy/offline_ops.py:571-580 | different tree contents are hashed as different strings |
| GitHash.TreeIsItsLeaves | deploy/offline_ops.py:603-625 | the files of a tree determine its raw bytes and identifier, however listings are ordered |
| GitHash.Binding | deploy/offline_ops.py:603-625 | two trees with one identifier have the same files, modes and blobs, or two hashed strings collide |
| Rebuild.AddIsRight | deploy/offline_ops.py:589-599 | a path is entered if and only if it meets no other, and adds exactly that file |
| Rebuild.BuildIsRight | deploy/offline_ops.py:588-599 | rebuilding succeeds if and only if no two paths collide, and yields exactly the listed files |
| Rebuild.RebuildTree | deploy/offline_ops.py:588-599 | the loop over nested dictionaries builds the specified tree |
| Manifest.ReadEntries | deploy/offline_ops.py:520-556 | the loop accepts exactly what the specification accepts: sorted, unique, bounded entries |
| Manifest.ParseReleaseManifest | deploy/offline_ops.py:478-559 | header, entries and recomputed root together decide acceptance as specified |
| Manifest.PathsAreUnique | deploy/offline_ops.py:542-544 | an accepted manifest lists each path once |
| Manifest.ManifestBinding | deploy/offline_ops.py:520-630 | two accepted manifests with one format and tree identifier list the same paths, modes and blobs, or two hashed strings collide |
| Manifest.RoundTrip | deploy/offline_ops.py:478-630 | a printed manifest comes back exactly as printed if its entries are acceptable and rebuild the named tree, and is refused otherwise |
| Export.Walker.WalkTree | deploy/release_export.py:253-302 | the recursive walk with its shared lists does what the specified walk does, which succeeds exactly as ExportComplete.ExportedExactly says |
| Export.Walker.VisitEntry | deploy/release_export.py:281-302 | one entry is checked, descended into or listed as specified |
| Export.FlattenLists | deploy/release_export.py:281-302 | the walk lists exactly the files of the tree, under their full paths |
| Export.LeavesArePrefixFree | deploy/release_export.py:278-280 | no file's path runs through another file |
| Export.WalkTells | deploy/release_export.py:253-302 | a finished walk read a well-formed tree whose recomputed identifier is the one it was asked for, and listed exactly its files |
| Export.AcceptableIfShallow | deploy/release_export.py:284-298 | what the exporter lists meets the importer's limits if and only if no path has more than 32 components |
| Export.ExportedIsTree | deploy/release_export.py:304-317 | the exported list holds each file of the tree once |
| Export.ExportThenImport | deploy/release_export.py:304-318 | what the exporter prints is read back unchanged if no directory is empty and no path too deep; deeper paths are refused, and empty directories too unless hashes collide |
| ExportComplete.ExportSucceeds | deploy/release_export.py:253-304 | whatever tree is stored under its hashes with safe names and within the limits is exported |
| ExportComplete.ExportedExactly | deploy/release_export.py:253-304 | an identifier is exported exactly when it is that of such a tree: directories at most 32 deep, paths of 4096 characters, 1 to 20000 files, 64 MiB per file and 512 MiB in all |
| ExportComplete.ExportIsMeasured | deploy/release_export.py:300-317 | every line tells the size and the SHA-256 of the blob it names |
| ExportExamples.DeepTreeIsExportedAndRefused | deploy/release_export.py:255-256 | under any hash that tells its 34 objects apart, a 33-component path is exported and refused on import |
| ExportExamples.HollowTreeIsExportedAndRefused | deploy/offline_ops.py:627-629 | under any hash that tells its four objects apart, a tree with an empty directory is exported and refused on import |
| CredentialRuns.RestoreUndoesDelete | internal/credentials/service.go:805-808 | a deletion followed by a restoration leaves every row as it was |
| CredentialRuns.UpdateCallIsSteps | internal/credentials/service.go:467-569 | a call of UpdateAt, with its two reads and an agent's probe in between, is one or two steps of a run, so the run theorems cover it |
| CredentialRuns.ReadStaysCurrent | internal/credentials/repository.go:102-160 | a row read earlier, with tags read later still, is the present row and version if the version has not moved since |
| CredentialRuns.PreparedExactly | internal/credentials/service.go:448-567 | an update prepared on the present state is ready if and only if it is well-formed, names the current version of an undeleted credential, is permitted before and after its edits and has a valid payload; then what it would write is the atomic update |
| CredentialRuns.UpdateIsAtomic | internal/credentials/service.go:429-648 | whatever commits between read and transaction, a committed update equals one atomic update of the state at commit, which that state allowed |
| CredentialRuns.RunIsSound | internal/credentials/service.go:1765-1793 | over every run, stored versions are exactly 1..current, never rewritten, never decreasing |
| CredentialRuns.OneCommitPerVersion | internal/credentials/service.go:569-640 | two updates with one expected version never both commit |
| CredentialRuns.CommittedUpdateMoves | internal/credentials/service.go:429-648 | a committed update moves the expected version to the next, which carries the new payload in canonical form or the previous plaintext |
| CredentialRuns.VersionsAreForever | internal/credentials/service.go:1765-1793 | a written version reads the same as long as its credential exists |
| CredentialRuns.StepIsAudited | internal/credentials/service.go:1355-1378 | a request commits and logs exactly one success for the credential it changed, or changes no row and logs no mutation |
| CredentialRuns.AuditConservesMutations | internal/credentials/service.go:1355-1378 | over every run the success events for mutations are exactly the committed mutations |
| CredentialReads.PayloadExactly | internal/credentials/service.go:211-256 | a read hands out a plaintext if and only if its look-up found an undeleted credential the actor may read and its event could be logged later |
| CredentialReads.ReadsAreAudited | internal/credentials/service.go:198-257 | over every run, a plaintext handed out is the payload of the version current at the look-up, stays that version's text while the credential exists, and its read event is in the log before it leaves and ever after |
| CredentialReads.UpdateOvertakesRead | internal/credentials/service.go:211-256 | a read may return the old payload after the new version is stored |
| CredentialReads.PurgeOvertakesRead | internal/credentials/service.go:211-256 | a read may return the payload of a credential deleted and purged meanwhile |
| CredentialReplay.StepKeepsSlot | internal/credentials/service.go:1210-1289 | under a live record a request returns the stored result for the same body or fails, and changes nothing; besides such requests only a cleanup touches the record, exactly when its text test holds |
| CredentialReplay.RepeatsAreReplays | internal/credentials/service.go:1210-1261 | until a request's clock or a cleanup's text test ends a stored result, every request under its key replays it or fails |
| CredentialReplay.RepeatedUpdateIsAnswered | internal/credentials/service.go:479-500 | an agent that repeats an update whose version has moved on gets the stored result, because the probe comes before the version check |
| CredentialReplay.OneCommitPerKey | internal/credentials/repository.go:453-520 | one agent, endpoint and key commit at most once until a request's clock is a day past the first or a cleanup reads the expiry as passed |
| CredentialReplay.OneCommitPerDay | internal/maintenance/scheduler.go:223-255 | in terms of clocks: a day, or up to a second less if a cleanup comes in the second of the expiry at an instant that is the expiry cut off |
| CredentialReplay.CleanupReopensKey | internal/maintenance/scheduler.go:227-234 | a cleanup on the full second of an expiry at half past lets a key write again before its day is over |
| CredentialReplay.ExpiryReopensKey | internal/credentials/repository.go:483-491 | a request a day later writes again under the same key |
| CredentialOutcomes.CreationExactly | internal/credentials/service.go:270-416 | with nothing stored under its key a creation commits exactly when its arguments are valid, the actor may create it, the Space is active, its links are allowed, its identifier is new and its event can be logged; else it is answered exactly when the body is the same, the actor may create it and may still create what was created |
| CredentialOutcomes.DeletionExactly | internal/credentials/service.go:663-756 | a deletion commits exactly when it is valid, expects the present version of an undeleted credential, is permitted and can be logged; a repetition is answered exactly when it is permitted and has the same body |
| CredentialOutcomes.RestorationExactly | internal/credentials/service.go:758-837 | a restoration commits exactly when it is valid, expects the present version of a deleted credential, is permitted and can be logged |
| CredentialOutcomes.PurgeExactly | internal/credentials/service.go:842-929 | the same for a purge, which must also name the Space |
| CredentialOutcomes.UpdateExactly | internal/credentials/service.go:429-648 | an update prepared on earlier reads commits exactly when it is well formed, found the expected version undeleted, and the present state allows it as one atomic update that can be logged |
| CredentialOutcomes.CommitsExactly | internal/credentials/service.go:270-929 | in every reachable state a request that is no repetition commits exactly when the policy permits it on the credential as it is then and its arguments and version fit |
| CredentialOutcomes.RepetitionNeverCommits | internal/credentials/service.go:1210-1239 | a request that finds a live record under its key never commits |
| CredentialOutcomes.NothingUnpermitted | internal/credentials/service.go:270-929 | over every run, nothing commits that the policy does not permit on the state it commits to |
| CredentialOutcomes.ProbeExactly | internal/credentials/service.go:479-500 | the probe lets an update pass exactly if nothing is stored, answers a repetition exactly if the body is the same and the stored credential may still be updated, and tells of another body |
| CredentialOutcomes.ReadIsAnswered | internal/credentials/service.go:193-257 | a read is answered with the version it found exactly if its event can be logged, and fails for that or for its own reason otherwise |
| CredentialOutcomes.FailuresAreLogged | internal/credentials/service.go:1380-1413 | every failed request leaves one failure event with its error and nothing else; if that event cannot be logged, the answer says so |
| CredentialOutcomes.StaleIsAConflict | internal/credentials/service.go:663-929 | a write with nothing wrong but the version it expects is told of the conflict |
| CredentialOutcomes.ReapedExactly | internal/credentials/service.go:1124-1201 | the scheduled purge removes a deleted credential exactly if its mark is not after the cutoff, or is less than a second after it and the cutoff is the beginning of its text; not if the mark is a beginning of the cutoff |
| Timestamps.TextOrder | internal/maintenance/scheduler.go:227-235 | printed instants sort by time, except an instant and the same instant with its last digits cut off, which sort the wrong way round |
| Timestamps.TextAtMostExactly | internal/credentials/repository.go:531-533 | when the text test holds, for any two instants |
| Timestamps.PrefixIsCut | internal/credentials/repository.go:531-533 | the printed fraction of one instant begins another's if and only if it is the other cut off after some digit |
| CredentialStore.Service.CreateAt | internal/credentials/service.go:270-416 | the method has exactly the specified outcome and tables, rollback and failure event included |
| CredentialStore.Service.Probe | internal/credentials/service.go:479-500 | the separate transaction that recognises a repeated request |
| CredentialStore.Service.UpdateAt | internal/credentials/service.go:429-648 | row, tags, probe and transaction each see the tables as they are by then; outcome, tables and failure event are those of the call |
| CredentialStore.Service.DeleteAt | internal/credentials/service.go:663-756 | the method has exactly the specified outcome and tables of a soft deletion |
| CredentialStore.Service.RestoreAt | internal/credentials/service.go:758-837 | the same for restoring |
| CredentialStore.Service.PurgeAt | internal/credentials/service.go:842-929 | the same for purging |
| CredentialStore.Service.GetAt | internal/credentials/service.go:193-257 | found on the tables at call time, authorized by tags read later, logged on whatever the tables are by then; the payload leaves only after its event was appended |
| CredentialStore.Service.CheckKey | internal/credentials/service.go:1210-1239 | a key is fresh, replayed or in conflict as specified |
| CredentialStore.Service.LookupIdempotency | internal/credentials/repository.go:453-497 | an expired record is deleted and not found |
| Pages.List | internal/credentials/service.go:129-182 | one page of the batched scan: in key order, at most the limit, nothing missed up to its cursor, whatever changes between batches; a page with a cursor is full or 4096 rows were looked at; refused only by a row that must be refused |
| Pages.ListEvents | internal/audit/service.go:137-174 | one page of audit events, newest first, nothing missed up to its cursor; a page with a cursor is full |
| Pages.FullPage | internal/credentials/service.go:129-182 | the cursor of a full page is its last row |
| Pages.CappedPage | internal/assets/service.go:534-593 | the cursor of a page cut off by the scan cap is the last row looked at, even if the page is empty |
| Pages.LastPage | internal/assets/service.go:111-161 | a page without a cursor reached the end of the table |
| Pages.TraversalIsComplete | internal/assets/service.go:111-161 | following cursors lists rows once each in key order and misses no row visible throughout, despite inserts and deletes between queries |
| Pages.StaticStoreIsListed | internal/credentials/service.go:129-182 | on a store at rest the pages together are exactly the visible rows |
| Pages.StaticTraversalEnds | internal/credentials/service.go:129-182 | every cursor uses up at least one row, so the traversal ends |
| Pages.LaterIsStrictTotal | internal/audit/service.go:137-174 | the descending (time, id) key orders audit events strictly |
| Pages.LaterMeansLater | internal/audit/repository.go:134-138 | the key puts later events first, and the larger identifier first among those of one instant |
| Timestamps.FixedTextOrder | internal/audit/repository.go:134-138 | in the fixed layout of nine fraction digits text order is time order |
| LoginSpec.MatchingTotpCounter | internal/identity/service.go:692-710 | the loop finds the latest counter of the window that shows the code, if there is one |
| LoginRuns.RunIsSound | internal/identity/service.go:229-312 | over every run: counters only grow, used codes and revocations stay, a replaced password hash never returns, and the re-hashes that wait in challenges are new |
| LoginSafety.CountersIncrease | internal/identity/repository.go:175-199 | counters accepted for a user at login and re-verification strictly increase (section 5.2 of RFC 6238) |
| LoginSafety.RecoveryCodesWorkOnce | internal/identity/repository.go:201-224 | a recovery code logs in at most once |
| LoginSafety.ChallengesWorkOnce | internal/identity/service.go:535-543 | a challenge logs in at most once |
| LoginSafety.NoStaleFirstFactor | internal/identity/repository.go:112-173 | a login's password was verified against the hash that stood unchanged from its reading to the login |
| LoginSafety.ResetInvalidatesChallenges | internal/identity/service.go:471-496 | after a reset only challenges begun from a later read of the user can log in |
| LoginSafety.ResetEndsSessions | internal/identity/repository.go:478-510 | after a reset no session the user had then ever resolves again |
| LoginSafety.RevocationIsPermanent | internal/identity/repository.go:226-258 | a revoked or absolutely expired session never resolves again, and idle expiry never passes absolute expiry |
| LoginSafety.SessionOver | internal/identity/repository.go:347-388 | a session keeps its user and expiry for good, and its revocation once set |
| LoginSafety.CodeIsAcceptedIfGood | internal/identity/service.go:498-533 | a code is accepted if and only if some counter of its window that shows it lies above the last one used, and is spent by that |
| LoginSafety.LoginSucceedsExactly | internal/identity/repository.go:112-173 | a challenge logs in if and only if it is unexpired, the user is active under the same hash and the second factor is good; exactly one session is added and only that user's hash may be upgraded |
| LoginSafety.SessionResolvesExactly | internal/identity/repository.go:226-258 | a session resolves if and only if it is live, and from then on it idles for eight hours but never past its absolute expiry |
| LoginSafety.FirstFactorExactly | internal/identity/service.go:229-267 | a challenge is handed out exactly when the user is there and the password is right; it carries the hash read, lives five minutes, and brings a new hash exactly if the parameters are out of date |
| LoginSafety.LoginExactly | internal/identity/service.go:229-312 | over every run: a login begun goes through exactly when, as it ends, five minutes have not passed, the user is active under the hash read at the beginning, and the second factor is good |
| LoginSafety.ChallengeWaits | internal/identity/service.go:535-551 | a challenge waits unchanged until it is taken, its user's challenges are dropped, or a later login finds it expired |
| LoginSafety.OneAttemptPerChallenge | internal/identity/service.go:269-312 | a challenge is gone after one attempt, and a failed attempt changes nothing else |
| LoginSafety.WindowExactly | internal/identity/service.go:692-710 | a counter is tried exactly if its half minute began less than a minute ago or begins within one period |
| LoginSafety.ReverifiesExactly | internal/identity/repository.go:260-309 | re-verification succeeds exactly on a live session with a good code whose event can be logged; it marks the session as verified now and uses the code up |
| LoginSafety.LogoutExactly | internal/identity/repository.go:347-388 | a logout succeeds exactly if it is not audited, or the session is live and its event can be logged; it revokes that session and changes nothing else |
| LoginSafety.LogoutEndsSession | internal/identity/repository.go:347-388 | over every run, after a logout that succeeded the session never resolves again |
| LoginSafety.RevocationEndsSessions | internal/identity/repository.go:390-394 | over every run, after a user's sessions were revoked none that the user had ever resolves again; other sessions are untouched |
| LoginSafety.ResetExactly | internal/identity/repository.go:487-510 | a reset succeeds exactly for an active user; it sets the hash, revokes that user's sessions and touches no one else |
| LoginSafety.ChallengesAreDropped | internal/identity/service.go:471-496 | dropping a user's challenges leaves none of them and all others |
| LoginService.Service.BeginLogin | internal/identity/service.go:229-267 | a challenge is stored with the hash it was verified against, expired ones leave |
| LoginService.Service.RemoveExpiredChallenges | internal/identity/service.go:545-551 | the loop removes exactly the expired challenges |
| LoginService.Service.ConsumeChallenge | internal/identity/service.go:535-543 | the first taker gets the challenge and nobody else does |
| LoginService.Service.VerifyAndConsumeTotp | internal/identity/service.go:498-533 | a counter is accepted and stored only above the last one |
| LoginService.Service.ConsumeRecoveryCode | internal/identity/repository.go:201-224 | an unused code of the user is marked used, any other is refused |
| LoginService.Service.CompleteLogin | internal/identity/repository.go:112-173 | second factor, hash check, upgrade and session are one transaction |
| LoginService.Service.ResolveSession | internal/identity/repository.go:226-258 | a live session is extended within its absolute expiry |
| LoginService.Service.VerifyRecentTotp | internal/identity/repository.go:260-309 | re-verification consumes a counter and marks the session, with its audit event or not at all |
| LoginService.Service.LogOut | internal/identity/repository.go:347-388 | a live session is revoked, with its audit event or not at all |
| LoginService.Service.ResetPassword | internal/identity/service.go:471-496 | hash and sessions change in one transaction, then exactly the user's challenges leave |
| FailureGate.ObserveKeepsBounds | internal/httpapi/auth_failure_gate.go:59-129 | per window at most 32 rows with the carried aggregate, 5 per key, 4096 keys, and the per-key counts sum to the individual rows |
| FailureGate.LoggedExactly | internal/httpapi/auth_failure_gate.go:101-128 | a counted failure gets its own row if and only if its key, its window and the key table have room; other keys and operations are untouched |
| FailureGate.UncountedExactly | internal/httpapi/auth_failure_gate.go:65-86 | a call without key or time, or behind its window, is turned away and changes nothing; the latter is told to come back when the window begins |
| FailureGate.WindowClosesExactly | internal/httpapi/auth_failure_gate.go:87-100 | a window closes exactly when a counted call comes a minute or more after its start; the aggregate reported is what it suppressed |
| FailureGate.RowsAreCounted | internal/httpapi/auth_failure_gate.go:59-129 | over all calls, the rows counted against the limit are exactly those written since the window began, the aggregate of the window before included, and at most 32 |
| FailureGate.EightWindows | internal/httpapi/auth_failure_gate.go:68-80 | the seven known operations have a window each, all other names share one |
| FailureGate.OneCallConserves | internal/httpapi/auth_failure_gate.go:87-128 | a counted failure is logged, pending or part of an emitted aggregate |
| FailureGate.NoFailureIsLost | internal/httpapi/auth_failure_gate.go:59-129 | over all calls and per operation: failures counted = rows logged + aggregates emitted + pending |
| FailureGate.AnonymousFailureGate.ObserveMode | internal/httpapi/auth_failure_gate.go:59-129 | the in-place gate has the specified observation and state |
| FailureGate.AnonymousFailureGate.CountFailure | internal/httpapi/auth_failure_gate.go:101-128 | within a window, a failure is recorded or suppressed as specified |
| Base32.DecodeAfterEncode | web/src/auth/totp.ts:61-82 | decoding an encoding returns any nonempty byte string (section 6 of RFC 4648) |
| Base32.EncodeAfterDecode | web/src/auth/totp.ts:61-82 | encoding again what was decoded returns the text if and only if its length modulo 8 is not 1, 3 or 6 |
| Base32Loops.ForeignLengthsAreAccepted | web/src/auth/totp.ts:61-82 | text of every length is accepted, so for those lengths there is text that does not come back |
| Base32Loops.OneLetterIsAccepted | web/src/auth/totp.ts:61-82 | "A" decodes to no bytes, which encode as no text |
| Base32Blocks.FiveBytes | web/src/auth/SetupPage.tsx:9-28 | five bytes are written as eight groups of five bits, most significant first (section 6 of RFC 4648) |
| Base32Blocks.BlockByBlock | web/src/auth/SetupPage.tsx:9-28 | blocks of five bytes are written one after the other |
| Base32Loops.GenerateSeed | web/src/auth/SetupPage.tsx:9-28 | the loops over a 32-bit accumulator that wraps around write the base32 form of the bytes |
| Base32Loops.DecodeBase32 | web/src/auth/totp.ts:61-82 | the masked buffer loop reads base32 and refuses foreign letters and nonzero spare bits |
| Base32Loops.SeedComesBack | web/src/auth/SetupPage.tsx:9-28 | any nonempty seed survives being written and read |
| TotpCodes.SameValue | internal/identity/service.go:712-721 | masking the whole word and masking its first byte give one value |
| TotpCodes.PaddedSpells | internal/identity/service.go:712-721 | a padded code has its width and spells its number |
| TotpCodes.GenerateTotp | internal/mcpserver/tools.go:915-931 | filling a buffer with zeros and copying digits over its end prints the padded code |
| TotpCodes.ThreeCodesAgree | web/src/auth/totp.ts:4-42 | for every digest the service, the web client and the tool server print one six-digit code, the truncated value modulo a million (section 5.3 of RFC 4226) |
| TotpCodes.WindowsAgree | web/src/auth/totp.ts:44-59 | client and service try the same counters (section 4.2 of RFC 6238) |
| TotpCodes.Rfc4226Example | internal/identity/service.go:712-721 | the worked example of section 5.4 of RFC 4226 gives 872921 |
| Envelopes.MarshalEnvelope | internal/cryptobox/envelope_binary.go:19-40 | an envelope is written in its layout if and only if it can be stored |
| Envelopes.UnmarshalEnvelope | internal/cryptobox/envelope_binary.go:42-76 | bytes are read as an envelope if and only if they are what that storable envelope is written as |
| Envelopes.LayoutIsInjective | internal/cryptobox/envelope_binary.go:19-40 | different envelopes are stored differently |
| Envelopes.FieldIsRead | internal/cryptobox/envelope_binary.go:78-94 | a written field is read back, whatever surrounds it |
| Envelopes.ReadIsField | internal/cryptobox/envelope_binary.go:83-94 | a field that is read stands there as it would be written |
| Cryptobox.AADIsInjective | internal/cryptobox/envelope.go:345-369 | associated data determines its domain and context, across all four domains |
| Cryptobox.DecryptAfterEncrypt | internal/cryptobox/envelope.go:186-265 | what is encrypted decrypts in its context, and fits storage up to exactly 65403 bytes |
| Cryptobox.RewrapKeepsText | internal/cryptobox/envelope.go:267-307 | moving to a new master key succeeds if and only if the envelope decrypts in the unchanged context, and keeps the text and the payload ciphertext |
| Cryptobox.MovedEnvelopeIsForgery | internal/cryptobox/envelope.go:257-265 | an envelope that decrypts in another context or as the other kind exhibits one ciphertext that opens under two associated data |
| Cryptobox.MovedPayloadIsForgery | internal/cryptobox/envelope.go:257-265 | a payload that opens in another context exhibits one ciphertext that opens under two associated data |

## Left out

Limiter:
- Tokens are exact reals; the rounding of `float64` and overflow of a wait beyond the `Duration` type are not modelled.
- The tables of default capacities and refills per operation, the `workUnits` and `lastSeen` counters, and the wrap-around of the 64-bit generation number.
- Buckets are values in maps: the aliasing of buckets between staging and the maps is not captured.
- Instants before Go's zero time.

Backups:
- Reordering of unsynced directory entries on power loss; file owners, modes, inodes, symlinks and tampering by others.
- `ListRuns`, `LatestSuccessful`, the columns `verified_at` and `deleted_at`, the lock that keeps two runs apart, and file modes during the copy.
- The calendar is a parameter that assigns each run its day, week and month; that UTC dates do so in order is taken from Go's `time`.
- Backup.Service.Run: takes the freshness of the random identifier as a requirement.

Release manifests:
- Tag, commit and epoch parsing, `git cat-file` and signature checks; writing the staged files; sealing and restoring on the file system.
- The different exceptions of the parser are one refusal; the size limit of the manifest file itself.
- Nested dictionaries are values, so updating a dictionary in place through an alias is not captured.

Credential store and lists:
- `authorize` is a fixed predicate of actor, action, Space and labels; input validation, asset-link and Space checks are verdicts that come with each call. New credential identifiers are taken to be new.
- `PurgeExpired` and its scheduled form purge in one transaction; the model purges their rows one step after another, by the same text test. The session check of `Purge`, and the encoding and filter binding of cursors.
- The tag and link tables behind `replaceTags` and `replaceAssetLinks`: a credential holds its tags and links as values. In the page loops the table of a query is the rows it found with the verdicts that followed, tags read by a second query included.
- The yearly deletion of audit events: the log is every event ever appended.
- The calendar behind a printed date is a parameter, fixed-width and ordered in four-digit years; other years are printed differently.

Login:
- Argon2, HMAC and the drawing of random values are parameters; new identifiers, tokens and salted password hashes are taken to differ from all earlier ones; password and email rules, the first owner, last-owner counts and role changes beyond the revocation they share with resets.
- Whether an audit event can be appended at logout and re-verification is a verdict that comes with the call.

Smaller pieces:
- Trimming, upper-casing and removal of padding before base32 decoding; Go's own base32 decoder.
- SHA-256 and SHA-512 digests, other periods and the expiry computed in internal/mcpserver/tools.go.
- Loading the master key file, and clearing keys in memory.
