# Laurencio in Dafny

Laurencio keeps the home directories of several devices in step through an encrypted, append-only
revision store. This project models its protocols and state machines and proves what they keep: over
every input, every interleaving, every crash point.

| area | files |
|---|---|
| the sync run | `SyncPlan`, `SyncRun`, `SyncLaws`, `SyncOutcome`, `SyncSession`, `SyncFleet` |
| ciphertext, forks, histories | `Blobs`, `Fold`, `StoreRotation`, `Integrity` |
| crash-safe writer | `Journal` |
| credential vault | `Heads`, `Vault`, `Credentials`, `CredentialFleet` |
| passphrase rotation | `Rotation` |
| marker blocks | `MarkerText`, `MarkerDocs`, `Markers`, `MarkerReinsert`, `MarkerLaws` |
| ownership and scan | `Ownership`, `Scan` |
| rollback guard, transfers, pinned snapshot | `Ancestry`, `Transfers`, `Snapshot` |
| daemon and rate limiter | `Daemon`, `RateLimit` |

## How the pieces fit

`SyncPlan.Classify` is the decision table for one path. `SyncRun` says, path by path, what a run does
with it: what the home holds afterwards, which entry the next manifest gets. A run has an opening scan, a
turn for each planned path, and a closing scan, and the user may edit any path between them: `found` is what
a path's turn meets, `late` what happens to the path afterwards. `SyncSession` is the run itself, loops over
mutable state, proved to end exactly there. `SyncLaws` are the promises about one run, `SyncOutcome`
tells one path's fate from the settings and the three sides alone, `SyncFleet` has the promises about any number
of devices and one store. A run is split where another device can get in: planning and
applying against an observed head, then one commit request, which the store accepts only while that head is
current (`packages/core/src/remote/file.ts:517-567`), and whose answer may be lost. A crash inside the apply
phase is, for the fleet, a number of edits.

`Journal` models the writer with a budget of primitive steps, so a crash may fall between any two of
them, inside repair as well. `ApplyPhaseLeavesCrashedHome` hands its guarantee to `CrashAndRerunExactlyWhen`.
`Integrity` puts commits, adoptions, folds and rotations on one time line of ciphertext. `Rotation` uses
the same step budget. `CredentialFleet` takes the per-record decisions of `Credentials` and interleaves them
over devices. `MarkerDocs` is a grammar written without looking at the parser; the laws in `MarkerLaws` hold
for any way of telling marker lines apart, and `LaurencioMarkersAreSane` supplies the two real patterns.

A hash is `HashOf(text)` and a digest `DigestOf(value)`: collisions are taken not to happen. Ciphertext is a
key with a text; it opens under that key only, and a key is fixed by passphrase and salt.

## What turned out otherwise

Each of these is a lemma with an exact condition or a concrete input.

- A local file nobody has seen is deleted exactly when the head holds a tombstone there and the base no
  file (`UnseenLocalFileDeletedExactlyWhen`).
- An edit while a run is under way can cost the head its file. The closing scan gives content without
  ciphertext the base's entry instead (`packages/core/src/engine.ts:1113-1119`): a settled file over a base
  tombstone leaves the head (`EditUnderTheRunDrops`), a file just downloaded turns the head back to the base's
  old text (`EditUnderTheRunReverts`). `UnknownHeadFileReplacedExactlyWhen` has the exact condition,
  `NoUnseenOverwrite` the same for every interleaving. Likewise a root that turns up during the run lets old
  content displace the head's (`CarriedForwardExactlyWhen`).
- A file that comes back after its deletion was planned is listed beside the tombstone
  (`packages/core/src/engine.ts:1121-1135`). Readers take the last entry, the tombstone; the committing device
  cannot save such a manifest as its base (`packages/core/src/state.ts:315-327`). `ListedIsFiles` says when.
- Crash and rerun differs from an uninterrupted run exactly when a merge gave back the base text and the
  crash came after writing it, when a root appeared whose other files are not on disk, or when a surface that
  is one file went with its root and only the base still lists it (`CrashAndRerunExactlyWhen`). The root need
  not hold a file: directories are made before the rename (`packages/core/src/apply.ts:311`, `:374`), and a
  crash in between is enough (`NewDirectoryTurnsAbsenceIntoDeletion`, `DeletedFileSurfaceComesBack`). Merges
  for which `m(b, b, r) = r` holds never do the first.
- A download into a missing root creates the root, and the next run reads every other file of that surface as
  deleted here (`NextRunCommitsNothingExactlyWhen`, with a run in `NewRootTurnsAbsenceIntoDeletion`).
- Without a base text a merge gets the head's text as its base (`packages/core/src/engine.ts:930-933`). A
  strategy that keeps a lone local change then returns the local text, and the head's file is replaced by one
  that knows nothing of it (`MergeKeepsOnlyLocalExactlyWhen`).
- A device with nothing to push adds no revision exactly when it revives no entry the head dropped and drops
  no conflict copy the head carries (`CatchUpAddsNoRevisionExactlyWhen`); a fleet settles in two rounds
  exactly as far as that holds and no file is lost with a root (`TwoRoundsConvergeExactlyWhen`).
- References are collected base first (`packages/core/src/engine.ts:1086-1092`). A device whose base predates
  a rotation therefore keeps, and later commits, references the current key does not open. A history stays
  intact exactly when no such device's run takes a reference from its base (`HistoryIsIntactExactlyWhen`).
- A fork fold keeps the union of its heads' paths exactly when the first head has them all
  (`FoldIsTheUnionExactlyWhen`).
- A crash between the rotation commit and its pending record leaves a head no passphrase opens, and
  neither command changes that (`StrandedHeadNeverOpens`, `RetryStranded`).
- A rotation does not look at the cached key, but resuming re-seals the side heads with it
  (`packages/cli/src/commands/rotate.ts:492`). Later crash points are recoverable exactly when the cached key
  opens the side heads (`EveryCutResumesExactlyWhen`). A device whose key lags gets stuck for good
  (`LaggingKeyGetsStuck`, `Recover`, `StuckHeadNeverOpens`).
- A pinned snapshot of a forked store fails as if the store were empty (`Capture`).
- A second-pass refusal of a mirrored write leaves the earlier mirrors written
  (`LateRefusalLeavesEarlierMirrors`); a first-pass refusal leaves all untouched.
- Re-insertion restores a file exactly when no block is a single blank line (`RoundTripExactlyWhen`).
- A pinned listing with limit zero returns everything (`LimitKeptExactlyWhen`), and a worker pool with limit
  zero does nothing (`EndsWithEverythingSettled`).
- The rate limiter's window bound holds exactly when ten minutes of refill cover the capacity: otherwise a
  crowd gets a drained bucket evicted, and the key starts full again (`BoundHoldsExactlyWhen`).

## Model

| member | source | states |
|---|---|---|
| SyncPlan.ClassifyIsThreeWay | packages/core/src/engine.ts:117-140 | the decision table is a three-way merge of file contents, each of the six verdicts with its exact condition, plus the one extra cause of deletion |
| SyncPlan.UnseenLocalFileDeletedExactlyWhen | packages/core/src/engine.ts:122-125 | a local file the base never recorded is deleted by the plan exactly when the head holds a tombstone and the base no file |
| SyncLaws.AssembledIsBacked | packages/core/src/engine.ts:1096-1120 | every file entry of the next manifest names ciphertext if those of base and head do |
| SyncLaws.UnknownHeadFileReplacedExactlyWhen | packages/core/src/engine.ts:1094-1120 | a commit replaces a managed head file its base did not hold, other than by merging with it, exactly when the user changed the path under the run and the content is gone, has ciphertext, or is stood in for by a base entry |
| SyncLaws.NoUnseenOverwriteAt | packages/core/src/engine.ts:869-1120 | where nobody edited under the run, it changes a managed path's head value only if there was no file, or the base held that value, or through a merge with it |
| SyncLaws.EditUnderTheRunDrops | packages/core/src/engine.ts:1113-1119 | the input: base tombstone, head and local file alike, edited during the run; the commit drops the file |
| SyncLaws.EditUnderTheRunReverts | packages/core/src/engine.ts:1113-1119 | the input: a downloaded file edited before the closing scan; the commit puts the base's old text back into the head |
| SyncLaws.CarriedForwardExactlyWhen | packages/core/src/engine.ts:1094-1157 | an entry outside the authority is carried with its kind and hash unless a file turned up below a root found missing, and then exactly when its content, or the base's in its place, differs |
| SyncLaws.CarryForwardAt | packages/core/src/engine.ts:1136-1157 | without edits under the run a head entry outside its authority survives the commit with its kind and hash |
| SyncLaws.HeadFileDroppedExactlyWhen | packages/core/src/engine.ts:1056-1135 | a head file leaves the store exactly when the path is managed and was gone at the opening scan with the base unchanged, is gone at the closing scan, or has new content over a base tombstone, or is a conflict copy in the authority; a tombstone is written exactly in the first case |
| SyncLaws.TombstonesOnlyInsideAuthority | packages/core/src/engine.ts:1121-1135 | a tombstone neither side had is created only for a managed path missing here whose head file the base knew |
| SyncLaws.ListedIsFiles | packages/core/src/engine.ts:1094-1135 | the listed files are the manifest's exactly when no file came back under a planned deletion |
| SyncLaws.FollowingMergeLeavesBase | packages/core/src/engine.ts:960-975 | with an absorbing merge that follows the remote, no merge of two moved sides ends at the base text |
| SyncLaws.RerunExactlyWhen | packages/core/src/engine.ts:869-1054 | one path crashed, any number of times, and rerun, with whatever roots, reaches the uninterrupted content in every case but a crash after the merge that gave back the base text; then it ends at the head's |
| SyncLaws.CrashAndRerunExactlyWhen | packages/core/src/engine.ts:376-396 | from any crash point, files and roots, the rerun leaves the same home exactly when no merge relapses to the base text, and the same manifest files exactly when, besides, no file is lost with a root that appeared nor revived by one that went with its file |
| SyncLaws.CrashesCompose | packages/core/src/engine.ts:376-396 | a crash of the rerun, relapsed merges and the roots it leaves included, is a crash point of the first run and leads to the very same second rerun, so the exact conditions cover any number of crashes |
| SyncLaws.NewRootTurnsAbsenceIntoDeletion | packages/core/src/engine.ts:528-533 | the run: root missing, one download, one sibling; the next run tombstones the sibling for everyone |
| SyncLaws.NewDirectoryTurnsAbsenceIntoDeletion | packages/core/src/apply.ts:308-311 | the crash: directory made, file not yet; the rerun tombstones the sibling the uninterrupted run carries |
| SyncLaws.DeletedFileSurfaceComesBack | packages/core/src/engine.ts:528-533 | the crash: a one-file surface deleted here and gone from the head; the rerun finds its root missing and carries the base's entry |
| SyncLaws.LocalMatchesManifestAt | packages/core/src/engine.ts:1079-1120 | after a complete run a managed path reads the same on disk and in the new manifest |
| SyncLaws.NextRunCommitsNothingExactlyWhen | packages/core/src/engine.ts:1180-1200 | a complete run is followed by one that changes no file, and that assembles the same file set exactly when no file is lost with a root that appeared |
| SyncLaws.CompleteLeavesNothingExactlyWhen | packages/core/src/engine.ts:1079-1120 | a complete run leaves the next one nothing to push exactly when no file is lost with a root while the head still has it |
| SyncLaws.CatchUpAt | packages/core/src/engine.ts:869-1157 | a run with nothing to push brings every managed path to the head's content, and keeps the head's entry exactly when nothing is revived or dropped there |
| SyncLaws.CatchUpAddsNoRevisionExactlyWhen | packages/core/src/engine.ts:1180-1200 | such a run adds no revision exactly when no path is revived and no conflict copy dropped |
| SyncLaws.FollowerAddsNoRevisionExactlyWhen | packages/core/src/engine.ts:1180-1200 | of two complete runs of one device the second adds no revision to the head it sees exactly when nothing is lost with a root, revived or dropped |
| SyncLaws.MergeKeepsOnlyLocalExactlyWhen | packages/core/src/engine.ts:930-975 | a merge that keeps lone local changes commits the local text alone exactly when there is no base file or the merge gives the local text; in the first case the head's differing file is replaced unseen |
| SyncOutcome.CompleteRunIsThreeWay | packages/core/src/engine.ts:869-1157 | end to end, without plan or authority: a complete run leaves on a path that is switched on, on disk and in the manifest alike, the side that alone moved, the local edit of a deleted file, or the merge of two moved files |
| SyncOutcome.SwitchedOffIsNotTouched | packages/core/src/engine.ts:485-516 | a path of an undeclared or disabled surface, an opt-in file whose surface is left off, a conflict copy or a protected ignored file is neither written, deleted nor sent |
| SyncOutcome.SwitchedOffIsCarried | packages/core/src/engine.ts:1136-1157 | and, conflict copies apart, the commit carries the head's entry there, else the base's |
| SyncOutcome.ConflictCopyIsCarriedExactlyWhen | packages/core/src/engine.ts:1136-1157 | a conflict copy's entry is carried where the run may not delete and dropped where it may |
| SyncOutcome.MissingRootDeletesNothing | packages/core/src/engine.ts:528-533 | with its root missing and no pruning, a path is fetched if the head moved and its entry is kept |
| SyncOutcome.NewFileCommittedExactlyWhen | packages/core/src/engine.ts:485-516 | a file only this device has is committed exactly when its surface is declared and enabled, it is no opt-in file left off, no conflict copy and not ignored |
| SyncOutcome.MissingFileTombstonedExactlyWhen | packages/core/src/engine.ts:1056-1076 | a file missing here which base and head agree on is tombstoned exactly when switched on, its root there or pruning |
| SyncOutcome.SentExactlyWhen | packages/core/src/engine.ts:918-1076 | a run sends exactly the local moves no rule blocks and the merges that settle, of files still there, and reports exactly the blocked moves |
| SyncOutcome.UnresolvedExactlyWhen | packages/core/src/engine.ts:1169-1179 | a quiet run waits exactly when some head move the disk does not have yet was put off |
| SyncOutcome.BlockedEditKeepsTheEntry | packages/core/src/engine.ts:1113-1119 | a blocked edit stays on disk while the store keeps the base's entry, else the head's |
| SyncOutcome.DeferredExactlyWhen | packages/core/src/engine.ts:869-1054 | for any run, edited under way or not: a download or deletion is put off exactly when it met an edit or did not end as planned and there is something left to do, a merge exactly when it found no file or did not settle |
| SyncOutcome.OnlyAMergeReplaces | packages/core/src/engine.ts:873-1054 | content written before a path's turn, and that of a turn put off, is kept or goes into a merge, never replaced unread |
| SyncOutcome.EntryWithoutCiphertextIsPassedOver | packages/core/src/engine.ts:869-930 | a head file without ciphertext is neither fetched nor put off |
| SyncOutcome.PutOffMergeIsWritten | packages/core/src/engine.ts:985-1026 | a merge put off after its write has left its result on disk and sent nothing |
| SyncSession.ComputeSyncPlan | packages/core/src/engine.ts:143-171 | plans every path of the three manifests that is not excluded, once, with the table's verdict on its own three sides |
| SyncSession.CollectRefs | packages/core/src/engine.ts:1086-1092 | references by content: this run's uploads over the base's over the head's, and no hash without one |
| SyncSession.AssembledWithAssembles | packages/core/src/engine.ts:1094-1157 | the manifest built with concrete references is one the pathwise description allows |
| SyncSession.AssembledIsIntact | packages/core/src/engine.ts:1086-1120 | if base and view open under the key, so does every entry of the assembled manifest and every file listed besides |
| SyncSession.IntactExactlyWhen | packages/core/src/engine.ts:1086-1157 | with view and uploads in order the assembled manifest opens exactly when every reference it takes from the base does |
| SyncSession.BaseIsSafeExactlyWhen | packages/core/src/engine.ts:1086-1157 | every run on a base, against any head that opens, assembles a manifest that opens exactly when the base itself opens |
| SyncSession.Session.SealUpload | packages/core/src/engine.ts:675-696 | content already held is not sealed again; otherwise the new reference opens to it and earlier ciphertext stays |
| SyncSession.Session.UploadLocalFile | packages/core/src/engine.ts:733-755 | the content then on disk is uploaded unless it is gone or a secret rule blocks it, and recorded accordingly |
| SyncSession.Session.DownloadOne | packages/core/src/engine.ts:873-909 | a download replaces a file that still reads as scanned, defers any other, and touches no other path |
| SyncSession.Session.MergeOne | packages/core/src/engine.ts:918-1026 | a merge takes the text it finds, leaves the merge of the three sides, uploads it when settled, is deferred without a text, and touches no other path |
| SyncSession.Session.DeleteOne | packages/core/src/engine.ts:1031-1054 | a local deletion removes a file that still reads as scanned, defers a changed one, passes over a missing one, and touches no other path |
| SyncSession.Session.Apply | packages/core/src/engine.ts:869-1076 | the four loops deal with every planned path exactly once, each by its own rule |
| SyncSession.Session.CollectWork | packages/core/src/engine.ts:1056-1076 | tombstones only on live surfaces, and the uploads in plan order |
| SyncSession.Session.Assemble | packages/core/src/engine.ts:1094-1157 | tombstones over scanned entries over carried ones, fallback included, and the files the tombstones shadow |
| SyncSession.Session.Execute | packages/core/src/engine.ts:433-1157 | the whole run, edits before each turn and before the closing scan included: the home ends as described, the manifest is an allowed one, opens under the key, and every blob named is listed |
| SyncSession.Session.Conclude | packages/core/src/engine.ts:1169-1202 | nothing is concluded over unresolved deferrals, and otherwise exactly when the head is adopted, the base kept, or a revision proposed |
| SyncFleet.StepKeeps | packages/core/src/engine.ts:1204-1243 | every edit, plan with edits inside it, crash, rejected, accepted or unanswered commit keeps: bases copy accepted revisions, requests were planned against the head they observed |
| SyncFleet.TraceKeeps | packages/core/src/engine.ts:376-396 | the same over whole runs of any number of devices |
| SyncFleet.NoUnseenOverwrite | packages/core/src/engine.ts:1094-1157 | in every interleaving a revision replaces a managed file its committer's base did not hold, other than by a merge, exactly when the user changed the path under the run as described, and one outside the authority exactly when a late root displaces it; the base is an earlier revision |
| SyncFleet.DroppedFilesWereDeletedByTheCommitter | packages/core/src/engine.ts:1056-1120 | in every interleaving a file disappears from the head exactly as the committer's deletion of a file it knew, a deletion during the run, an edit during the run over a base tombstone, or a conflict copy |
| SyncFleet.AcceptedOnlyAtTheObservedHead | packages/core/src/remote/file.ts:526-540 | the store changes only through a request whose observed head is current |
| SyncFleet.SubmitLandsExactlyWhen | packages/core/src/engine.ts:1204-1243 | a submitted request's manifest becomes the head exactly if no other came in between, and its device's base if the answer arrives and no file is listed twice |
| SyncFleet.CatchUpMirrors | packages/core/src/engine.ts:1186-1197 | a catch-up run ends with the head as base and all managed files equal to it, without a revision |
| SyncFleet.FleetConverges | packages/core/src/engine.ts:1180-1243 | one catch-up run per device with nothing to push, in any order, asks for no commit and leaves every device a mirror of the head |
| SyncFleet.TwoRoundsConvergeExactlyWhen | packages/core/src/engine.ts:1180-1243 | once every device has finished one complete run, by adoption, by keeping its base or by an accepted commit, and edits have stopped, a device's next run, in any order, asks for no commit and mirrors the head exactly when it loses, revives and drops nothing |
| Blobs.BlobStore.Put | packages/core/src/engine.ts:680-681 | ciphertext goes in under a fresh reference and nothing stored changes |
| Fold.FoldKeepsTheFirstHeadsPaths | packages/core/src/engine.ts:1310-1312 | a fold's paths are the first head's, for any number of heads |
| Fold.FoldKeepsAgreement | packages/core/src/engine.ts:1310-1312 | paths on which the heads agree come out unchanged |
| Fold.FoldKeepsTheKind | packages/core/src/engine.ts:1298-1368 | as long as a fold of any number of heads succeeds, a path stays a file or a tombstone as in the first head |
| Fold.DeletionAgainstFileIsStuck | packages/core/src/engine.ts:1313-1321 | a deletion against a file in any later head is reported, never decided |
| Fold.FoldIsTheUnionExactlyWhen | packages/core/src/engine.ts:1298-1373 | a fold is the union of its heads exactly when the first head carries every path |
| Fold.Folder.MergeTexts | packages/core/src/engine.ts:1322-1353 | both sides are opened and merged over the base's text, empty when there is none |
| Fold.NextHeadIsMergedIn | packages/core/src/engine.ts:1310-1367 | another text in a further head is merged over the base's text, or over nothing without one; equal texts stay, a tombstone or a file without ciphertext sticks |
| Fold.Folder.FoldOne | packages/core/src/engine.ts:1310-1367 | one path is kept, replaced by sealed merged content, or reported, and no other path moves |
| Fold.Folder.FoldHead | packages/core/src/engine.ts:1304-1368 | folding one head does that to each of its paths |
| Fold.Folder.ResolveRemoteView | packages/core/src/engine.ts:1274-1376 | no head gives no view, several give the fold in order, failing exactly when a path gets stuck; the view opens if all heads do |
| StoreRotation.OpenAll | packages/core/src/crypto/rotate.ts:84-101 | succeeds exactly when every blob is there and opens under the old key |
| StoreRotation.RotateManifest | packages/core/src/crypto/rotate.ts:221-255 | keeps every path, hash and plaintext under wholly new ciphertext, and succeeds exactly when all referenced blobs open |
| StoreRotation.IntactManifestsRotate | packages/core/src/crypto/rotate.ts:221-230 | an intact head can always be rotated |
| Integrity.RunAssemblesIntactExactlyWhen | packages/core/src/engine.ts:1086-1120 | what a run assembles opens exactly when its base was kept since the last rotation, or no reference is taken from it |
| Integrity.StepKeepsExactlyWhen | packages/core/src/engine.ts:1086-1157 | an upload, commit, adoption, fold or rotation by any device, stale ones included, keeps every revision and base intact exactly when its run, if any, starts fresh or takes nothing from its base |
| Integrity.HistoryIsIntactExactlyWhen | packages/core/src/engine.ts:1086-1157 | a whole history stays intact exactly when all its steps are of that kind |
| Integrity.EveryRevisionIsIntact | packages/core/src/engine.ts:1390-1396 | up to the first other step every committed entry opens to its hash and every commit lists stored blobs, all it needs among them |
| Integrity.StaleDeviceIsSafeExactlyWhen | packages/core/src/engine.ts:1086-1092 | every run of a device left behind by a rotation assembles a manifest that opens exactly when its base names no blob at all |
| Journal.Applier.Begin | packages/core/src/state.ts:675-696 | an intent row is appended under an id no temp file has |
| Journal.Applier.Land | packages/core/src/apply.ts:402-405 | the rename replaces the target by the staged content whole or not at all, and clears row and temp when it completes |
| Journal.Applier.WriteOne | packages/core/src/apply.ts:366-406 | one mirror ends landed, backed out or cut off, with the target untouched or complete and no leftover unless cut off |
| Journal.Applier.EnsureParentDirectories | packages/core/src/materialize.ts:183-185 | the missing directories above a target are made one by one, any prefix of them before a crash |
| Journal.Applier.WriteAll | packages/core/src/apply.ts:293-354 | where a mirrored write stops and what each outcome leaves, for every crash point, the making of directories included, and every foreign edit before a verification; whatever has landed was accepted by the first pass and verified |
| Journal.DoneExactlyWhen | packages/core/src/apply.ts:308-354 | a write not cut off is done exactly when every path is in the plan, unmoved, and held what the caller expects both before the write and when its own turn came: absent, or the text read, on the first path with its modification time |
| Journal.ReplacesOnlyWhatItExpected | packages/core/src/apply.ts:332-364 | however a write ends, every mirror it has replaced was so at that moment |
| Journal.QuietWriteIsCompareAndSet | packages/core/src/apply.ts:308-354 | with nobody else writing, the content is on all the paths or on none, and on all exactly when each is as last read |
| Journal.QuietSingleWrite | packages/core/src/apply.ts:312-320 | cut off anywhere, a write to one path replaces it only if it is what the caller read |
| Journal.LateRefusalLeavesEarlierMirrors | packages/core/src/apply.ts:332-354 | the write: two mirrors, the second created by somebody else in between; it is refused and the first stays written |
| Journal.Applier.Remove | packages/core/src/apply.ts:412-458 | planned files go one after another, up to the first path outside the plan or the crash |
| Journal.RemovalTakesItsTargets | packages/core/src/apply.ts:412-458 | a removal that is done has taken exactly its paths; it is refused exactly at a path outside the plan, the ones before it gone |
| Journal.Applier.Reconcile | packages/core/src/state.ts:739-779 | repair touches no target, ends with an empty journal and no temp file, and reports an operation as adopted exactly when its target shows its result |
| Journal.ReportMeans | packages/core/src/state.ts:739-779 | an operation is reported done if its target shows the result, rolled back if only its temp file is there, else cleared |
| Journal.Applier.Play | packages/core/src/state.ts:739-779 | any script of writes, removals, repairs and foreign edits, each cut off anywhere, is explained turn by turn; directories only grow and house every file |
| Journal.QuietNeverRefusesLate | packages/core/src/apply.ts:332-352 | with nobody else writing the second pass never refuses what the first accepted |
| Journal.OldOrFullResult | packages/core/src/apply.ts:388-405 | after any script every path holds its old state or the full result of one turn, never a torn file |
| Journal.ApplyPhaseLeavesCrashedHome | packages/core/src/engine.ts:869-1054 | a sync killed in its apply phase and repaired leaves each path untouched or final, and of the roots at least those of the files, with none of a known path gone except with that path |
| Journal.KilledAfterDeletingAFileSurface | packages/core/src/engine.ts:1031-1054 | the script: a one-file surface deleted and the machine killed; its root is gone, all premises hold, and the rerun brings the file back |
| Heads.HeadTable.Write | packages/server/src/vault.ts:33-100 | a write is accepted exactly when it names the current generation and a registered blob; heads are numbered one by one (the profile head, packages/server/src/profile-head.ts:37-104, is the same) |
| Vault.Vault.Put | packages/core/src/vault.ts:121-155 | a value is stored exactly when the caller names the version it replaces and the value fits; the version grows by one, errors in order |
| Vault.Vault.Remove | packages/core/src/vault.ts:157-173 | a record is removed exactly at the version named |
| Credentials.ReconcileMeans | packages/core/src/credentials/index.ts:196-264 | against a record's full past: captured only by a device that saw the newest version, native overwritten only if it is a past value, conflict exactly when both sides have news |
| Credentials.ReconcileSettles | packages/core/src/credentials/index.ts:196-264 | a second reconcile on the saved baselines finds nothing to do unless the first found a conflict |
| Credentials.PrepareReferences | packages/core/src/credentials/index.ts:380-400 | references are accepted exactly when no two share a record |
| Credentials.Adapter.ReconcileOne | packages/core/src/credentials/index.ts:208-260 | one reference moves its native value, record and baseline as decided and nothing else |
| Credentials.Adapter.Reconcile | packages/core/src/credentials/index.ts:196-264 | every reference is dealt with on its own original three sides, or everything before the first value the vault refuses is |
| Credentials.Adapter.Capture | packages/core/src/credentials/index.ts:111-158 | every differing native value is put at the current version, baselines unread |
| Credentials.CapturingMeans | packages/core/src/credentials/index.ts:111-158 | exactly the native values the vault does not hold as they are go in, one version on |
| Credentials.Adapter.Materialize | packages/core/src/credentials/index.ts:160-189 | every record the vault holds reaches its slot |
| Credentials.MaterializingMeans | packages/core/src/credentials/index.ts:160-189 | every value the vault holds replaces what its slot held, and nothing else moves |
| CredentialFleet.StepKeeps | packages/cli/src/workbench/vault.ts:83-123 | every step of every device keeps: versions count past values, saved baselines describe them, running sessions replace only what they snapshotted |
| CredentialFleet.SavedBaselinesDescribeTheirVersions | packages/cli/src/credential-sync.ts:145-160 | every baseline any device ever saves is the digest of the value its record had at that version |
| CredentialFleet.AcceptedWriteReplacesWhatItSaw | packages/cli/src/workbench/vault.ts:83-123 | an accepted write moves each changed record to the next version, and a reconcile replaces version v only from a device whose baseline is v |
| CredentialFleet.NativeOverwrittenOnlyWhenKnown | packages/core/src/credentials/index.ts:225-256 | a reconcile overwrites a native value only if it equals its saved baseline's value, which is in the record's past |
| CredentialFleet.PastsGrow | packages/server/src/vault.ts:33-100 | no value a record ever had is lost from its past, and versions never fall |
| CredentialFleet.SessionGoesOn | packages/core/src/credentials/index.ts:196-264 | a session never gets stuck: references left are taken, then changes published, then a reconcile's baselines saved |
| CredentialFleet.PublishLandsExactlyWhen | packages/cli/src/workbench/vault.ts:83-123 | a publish lands exactly when nobody has written since its session began, and otherwise changes nothing and ends the session |
| Rotation.Rotator.EnsureSidesRotated | packages/cli/src/commands/rotate.ts:188-284 | profile first, each head is re-sealed once; stops at a head neither key opens, and completes exactly when there is none and the steps suffice; each side keeps its plaintext, one generation on exactly if its key changed |
| Rotation.ChainKeepsPlaintexts | packages/cli/src/commands/rotate.ts:205-284 | at every point of a rotation profile and vault hold what they held before it, one generation on exactly if re-sealed |
| Rotation.ResealingKeepsPlaintexts | packages/cli/src/commands/rotate.ts:205-284 | however far re-sealing gets, it loses no plaintext and changes nothing besides the two sides |
| Rotation.PublishesExactlyWhen | packages/core/src/remote/file.ts:372-406 | published parameters are replaced only at the generation their writer expects |
| Rotation.StartsExactlyWhen | packages/cli/src/commands/rotate.ts:286-327 | a rotation starts exactly on a single head the passphrase opens, with a new passphrase and none pending |
| Rotation.Rotator.PublishPending | packages/cli/src/commands/rotate.ts:106-141 | parameters are published at the expected generation or not at all, and the record cleared only afterwards |
| Rotation.Rotator.CommitRotation | packages/core/src/crypto/rotate.ts:221-312 | the re-encrypted head is committed with the same contents, opening under the new key |
| Rotation.Rotator.Run | packages/cli/src/commands/rotate.ts:286-420 | refusals write nothing; whatever key is cached, cut off before the commit nothing changed, right after it the store is stranded, from the pending record on it is underway with its side heads exactly as far as the steps go; with enough steps it is published exactly when the passphrase's key opens the side heads |
| Rotation.EveryCutResumesExactlyWhen | packages/cli/src/commands/rotate.ts:330-353 | every cut from the pending record on can be resumed exactly when the cached key opens both side heads, that is, when it is the passphrase's key or there are none |
| Rotation.LaggingKeyGetsStuck | packages/cli/src/commands/rotate.ts:330-353 | the input: a cached key of an older salt and a vault; cut off after its pending record the rotation cannot be resumed |
| Rotation.StuckHeadNeverOpens | packages/cli/src/commands/rotate.ts:454-521 | no passphrase with the published salt, and not the cached key, opens the head of such a rotation |
| Rotation.Rotator.EnsurePendingKey | packages/cli/src/commands/rotate.ts:427-452 | the cached key if it opens the revision, else the derived one, else refusal |
| Rotation.Rotator.Resume | packages/cli/src/commands/rotate.ts:454-521 | keeps the chain published, cached, sides, head from any crash; with enough steps and the right passphrase, or none once the key is cached, publishes exactly when the sides open under the new or the once cached key; else parameters and device stay as they are |
| Rotation.Rotator.Recover | packages/cli/src/commands/rotate.ts:454-521 | any number of crashed resumes with any passphrases, then one good one, end published with sides and cache rotated exactly when the rotation can be resumed, and otherwise change neither parameters nor device |
| Rotation.StrandedHeadNeverOpens | packages/cli/src/commands/rotate.ts:330-353 | between commit and pending record no passphrase with a known salt opens the head |
| Rotation.Rotator.RetryStranded | packages/cli/src/commands/rotate.ts:330-353 | neither command finds a key or writes anything in that state |
| MarkerText.LaurencioMarkersAreSane | packages/core/src/markers.ts:26-27 | the two patterns tell the literal marker lines apart and take a blank line for neither |
| MarkerText.OpenLineExactlyWhen | packages/core/src/markers.ts:26-26 | a line opens a block exactly when it is blanks, the comment opener, white space, the name, white space, the closer, blanks and at most a carriage return |
| MarkerText.CloseLineExactlyWhen | packages/core/src/markers.ts:27-27 | and closes one exactly with a slash, white space allowed after it, before the name |
| MarkerText.JoinSplit | packages/core/src/markers.ts:33-35 | joining the lines of a text gives the text |
| MarkerText.SplitJoin | packages/core/src/markers.ts:33-35 | splitting joined lines gives the lines |
| MarkerDocs.BalancedIsRendered | packages/core/src/markers.ts:38-65 | alternating markers are exactly what a document of plain lines and blocks renders to |
| MarkerDocs.RenderIsBalanced | packages/core/src/markers.ts:38-65 | and every document renders to alternating markers |
| MarkerDocs.RenderInjective | packages/core/src/markers.ts:38-65 | a text has one reading as a document |
| Markers.ParseLocalBlocks | packages/core/src/markers.ts:38-65 | accepts exactly the texts whose markers alternate and otherwise names the first line where they stop |
| Markers.ParsedBlocks | packages/core/src/markers.ts:52-62 | the reported blocks are the document's, with line numbers and contents |
| Markers.StripLocalBlocks | packages/core/src/markers.ts:72-83 | the projection is the document with every body emptied; malformed text is refused |
| MarkerReinsert.FindAnchors | packages/core/src/markers.ts:93-106 | pairs and a hanging open line, in order, whatever the damage |
| MarkerReinsert.CopyWithBodies | packages/core/src/markers.ts:109-127 | bodies are placed in front of their close lines in order, and what is left over is exactly what found no pair |
| MarkerReinsert.ReinsertLocalBlocks | packages/core/src/markers.ts:90-143 | the whole re-insertion, leftovers and trailing newline included |
| MarkerLaws.NothingIsLost | packages/core/src/markers.ts:90-143 | for any projection the result consists of all its lines in order, every body as one run in order, and added lines that are each a marker or blank |
| MarkerLaws.InsertFills | packages/core/src/markers.ts:109-127 | in a well-formed projection each body lands in its own block, first come first served |
| MarkerLaws.RoundTripExactlyWhen | packages/core/src/markers.ts:72-143 | stripping and re-inserting restores the text exactly when no body is one blank line |
| MarkerLaws.SameUploadExactlyWhen | packages/core/src/markers.ts:72-83 | two files upload alike exactly when they differ only inside bodies |
| MarkerLaws.SettlesExactlyWhen | packages/core/src/engine.ts:757-794 | a download's next projection is the remote text exactly when that is well formed with empty pairs, one per local block at least |
| Ownership.AtMostOneElected | packages/core/src/ownership.ts:143-164 | a path elects at most one owner |
| Ownership.ElectedBeatsTheOthers | packages/core/src/ownership.ts:107-164 | an elected surface is unshared against shared, direct against a link of its kind, or first by id where all are shared |
| Ownership.PathHasAnOwnerExactlyWhen | packages/core/src/ownership.ts:143-164 | a path has an owner exactly when one of its surfaces beats all the others so, or all are shared |
| Ownership.Elect | packages/core/src/ownership.ts:143-164 | the strictly best rank wins, a tie of shared trees goes to the least id, any other tie elects nobody |
| Ownership.MostSpecificContainer | packages/core/src/ownership.ts:88-101 | the deepest surface strictly around the path |
| Ownership.Resolver.ElectAll | packages/core/src/ownership.ts:136-169 | fails exactly when a path has no winner; otherwise losers point at the winner of their path |
| Ownership.Resolver.LinkOne | packages/core/src/ownership.ts:173-181 | a winning link inside another winner's tree gives way, no other surface does |
| Ownership.Resolver.UltimateOwner | packages/core/src/ownership.ts:186-199 | following references always ends at an owner; the cycle error cannot occur |
| Ownership.Resolver.Resolve | packages/core/src/ownership.ts:118-203 | either some path has no winner, or every surface ends at the deepest owner whose root equals or contains its own; those that own themselves are the elected ones but for links into another elected tree, and no two share a path |
| Scan.ScanState.WalkTree | packages/core/src/scan.ts:339-385 | records exactly the files reached through readable directories without passing an exclusion or another root |
| Scan.TreeRecordsExactlyWhen | packages/core/src/scan.ts:339-385 | a tree's file is recorded exactly when readable directories lead to it and no step down to it is excluded or another surface's root |
| Scan.FileSurfaceRecordsItsFile | packages/core/src/scan.ts:400-408 | any other surface records the file at its root, if there is one, and nothing else |
| Scan.NodeAtFollowsThePath | packages/core/src/scan.ts:387-399 | a surface's root is the node its path leads to |
| Scan.ScanState.ScanRoot | packages/core/src/scan.ts:387-411 | a tree is walked, a file surface is its one file, anything else contributes nothing |
| Scan.ScanState.ScanAll | packages/core/src/scan.ts:413-437 | the entries are those of the owner surfaces, each bounded by all owner roots |
| Scan.RecordedUnderDeepestRoot | packages/core/src/scan.ts:339-385 | a recorded file has no other owner root between it and its own |
| Scan.EachFileHasOneSurface | packages/core/src/scan.ts:339-431 | each physical file is recorded for at most one surface, the deepest owner root above it |
| Scan.FindOwnerRoot | packages/core/src/scan.ts:196-204 | a link target is attributed to the deepest owner root at or above it |
| Ancestry.RemoteAncestry | packages/core/src/engine.ts:346-363 | terminates with exactly the ids reachable from the heads through rows that are present |
| Ancestry.LostHeads | packages/core/src/engine.ts:365-374 | the guard names exactly the known heads the listing does not reach |
| Ancestry.ParentsFor | packages/core/src/engine.ts:1209-1212 | the first four distinct of the observed heads and then the base, in that order, so every observed head despite the cap, and the base whenever there is room |
| Ancestry.EveryRevisionIsReachable | packages/core/src/engine.ts:341-363 | in an append-only store every revision is reachable from the maximal ones |
| Ancestry.GuardNeverRaises | packages/core/src/engine.ts:538-547 | over any run against an append-only store the guard lets every honest listing through |
| Ancestry.PullIsRemembered | packages/core/src/engine.ts:538-547 | a pull of an honest listing is what the guard holds the next one against |
| Ancestry.CoveringCommitIsTheOnlyHead | packages/core/src/engine.ts:1209-1212 | a commit whose parents list every head becomes the only one |
| Transfers.StartsAPrefixWithinTheLimit | packages/core/src/engine.ts:282-304 | in every interleaving the items begun are a prefix, each once, at most `limit` under way |
| Transfers.RunsEnd | packages/core/src/engine.ts:282-304 | no run of the pool is longer than two steps per item and one per worker, and some step is possible while a worker is there |
| Transfers.EndsWithEverythingSettled | packages/core/src/engine.ts:282-307 | every run comes to an end, all begun work has then ended, all of it when nothing failed, nothing with a limit of zero |
| Transfers.FailuresAreTheFailedWork | packages/core/src/engine.ts:290-303 | the pool's failures are exactly the items whose work failed in the run |
| Transfers.FirstFailure | packages/core/src/engine.ts:304-306 | the pool throws exactly when some work failed, and then the failed item with the lowest index |
| Transfers.NothingBegunAfterAFailure | packages/core/src/engine.ts:288-303 | once some work has failed no further item is begun |
| Transfers.OnePutPerContent | packages/core/src/engine.ts:675-696 | no content ever has two puts outstanding |
| Transfers.KnownContentIsNotSentAgain | packages/core/src/engine.ts:675-679 | content once uploaded is never sent again |
| Transfers.TransferBatches | packages/core/src/engine.ts:829-847 | an in-order partition into non-empty batches of at most four distinct blobs, each opened only because its first file did not fit |
| Transfers.BatchFetchesWhatItsFilesNeed | packages/core/src/engine.ts:821-828 | a batch's blobs are exactly those of its files' head entries and, for merges, base entries |
| Transfers.NextFileDidNotFit | packages/core/src/engine.ts:829-847 | the file that opens a batch would have taken the one before beyond four blobs, unless it names one blob twice |
| Snapshot.HeadsAreMonotone | packages/server/src/profile-head.ts:53-97 | generations only grow, and an equal generation means an unchanged head |
| Snapshot.ServersEvolve | packages/server/src/profile-head.ts:53-97 | every write of the server's heads and every new row is among the moves the pinned snapshot reckons with |
| Snapshot.EqualReadingsHoldBetween | packages/cli/src/workbench/materialize.ts:120-139 | two equal readings hold for every moment between them, in whatever order rows are listed |
| Snapshot.AgreesExactlyWhen | packages/cli/src/workbench/materialize.ts:120-139 | an attempt agrees exactly when listing and supported heads read the same twice |
| Snapshot.Capture | packages/cli/src/workbench/materialize.ts:115-145 | success comes from an agreeing attempt, with one moment at which listing, profile and vault all held the pinned values; the empty-profile error with one at which there was no single head; giving up means every attempt saw a change |
| Snapshot.PinnedRevisionList | packages/cli/src/workbench/materialize.ts:42-64 | a suffix of the pinned listing, by `since` and `limit` |
| Snapshot.PageExactly | packages/cli/src/workbench/materialize.ts:42-64 | a page is what comes after `since`, itself not included, or the last `limit` of it |
| Snapshot.LimitKeptExactlyWhen | packages/cli/src/workbench/materialize.ts:51-53 | the limit is kept exactly when it is not zero or nothing is listed |
| Snapshot.ViewIsThePinnedMoment | packages/cli/src/workbench/materialize.ts:71-113 | the view answers every read as the remote would have at that moment (packages/core/src/remote/file.ts:407-420) and rejects every write, or has no such operation |
| Daemon.BackoffIsMonotoneAndCapped | packages/cli/src/daemon/backoff.ts:18-25 | the delay never shrinks with more failures and stays within the ceiling |
| Daemon.BackoffDoubles | packages/cli/src/daemon/backoff.ts:18-25 | the first retry waits the base, and below the ceiling each failure doubles the delay, 32 times at most |
| Daemon.DaemonRuntime.Wake | packages/cli/src/daemon/runtime.ts:142-151 | an accepted wake ends the wait or is noted for the end of the tick |
| Daemon.DaemonRuntime.TimerFires | packages/cli/src/daemon/runtime.ts:182-196 | a tick starts exactly when schedule and deadline have passed |
| Daemon.DaemonRuntime.Resume | packages/cli/src/daemon/runtime.ts:187-190 | after a wake the loop ticks at once or as soon as the deadline allows |
| Daemon.DaemonRuntime.BeginTick | packages/cli/src/daemon/runtime.ts:219-232 | a paused tick only polls, any other begins one attempt, never before the deadline |
| Daemon.DaemonRuntime.FinishSync | packages/cli/src/daemon/runtime.ts:233-259 | offline, failed or throwing counts and moves the deadline, anything else resets both; a noted wake pulls the schedule forward |
| Daemon.DaemonRuntime.Play | packages/cli/src/daemon/runtime.ts:182-259 | over any interleaving no attempt begins before its deadline, and a tick has started after an accepted wake once two moves as long as the longest backoff have followed it, unless the daemon is stopped |
| RateLimit.RateLimiter.Take | packages/server/src/rate.ts:40-55 | the decision and the new buckets for the level of the key, about which the laws below speak |
| RateLimit.RateLimiter.Prune | packages/server/src/rate.ts:57-62 | above the threshold exactly the buckets idle for more than ten minutes go |
| RateLimit.EvictionInvisibleExactlyWhen | packages/server/src/rate.ts:57-62 | no eviction can be noticed exactly when ten minutes of refill cover the capacity |
| RateLimit.CoveredRefillEvictsOnlyFull | packages/server/src/rate.ts:57-62 | then no call of any window evicts a bucket before it is full |
| RateLimit.TakePays | packages/server/src/rate.ts:40-55 | a call lowers a key's level by one exactly when it is that key's and answered with `allowed` |
| RateLimit.WindowBound | packages/server/src/rate.ts:40-62 | in any window at most capacity plus rate times its length are answered with `allowed` on a key whose bucket is never evicted early |
| RateLimit.BoundHoldsExactlyWhen | packages/server/src/rate.ts:40-62 | from a new limiter the bound holds for every run of calls, key and window exactly when ten minutes of refill cover the capacity, or the capacity is below one |
| RateLimit.BoundIsBroken | packages/server/src/rate.ts:57-62 | otherwise: drain a key, let ten thousand others in, wait out the eviction, and drain it again |
| RateLimit.RemainingIsWhatIsLeft | packages/server/src/rate.ts:47-50 | an allowed caller is told how many more calls at once would pass |
| RateLimit.AdviceIsEnoughAndNeeded | packages/server/src/rate.ts:53-54 | the advised seconds suffice and one second less would not |
| RateLimit.WaitingHelps | packages/server/src/rate.ts:40-55 | after the advised wait the key's next call is answered with `allowed`, whatever other keys did |

## Left out

- Cryptographic primitives, key derivation costs, keychains and envelope formats: ciphertext is a key with a text.
- Merge strategies: any function; where a law needs it, agreeing sides stay put and a merge absorbs its own result.
- Adapter transforms and secret rules: a file's projection is its text; a blocked upload is one of the fates a path may meet.
- Surface and policy of a path: both are fixed by the path, where the code lets each manifest name its own.
- SyncSession.ComputeSyncPlan: the plan's operations and its sorted order (packages/core/src/engine.ts:172-238) are for display; they follow from the resolutions.
- SyncSession.CollectRefs: which of several references the base holds for one content is open, where the code takes the first in manifest order.
- SyncSession.Session.DownloadOne: a write put off for a recent edit or for marker damage is a fate chosen freely; the changed-since-scan guard is modelled.
- SyncSession.Session.DeleteOne: a deletion put off for a recent edit is such a fate too.
- SyncSession.Session.UploadLocalFile: transforms, marker parsing and secret rules are one fate, blocked or not.
- SyncSession.Session.Apply: a path's turn is one moment; edits between its guard and its rename, or between a merge's write and its upload, and a second merge attempt after a blocked upload, are not in it.
- SyncSession.Session.MergeOne: quiescence, blocked uploads and the three attempts are a fate chosen freely; the code also lists a merged file that a secret rule blocks among the blocked ones; here it is only deferred.
- SyncSession.Session.UploadAll: uploads one file after another; the worker pool is in Transfers.
- Conflict copies on disk and the conflict ledger: a conflicted merge keeps the local text.
- File modes, sizes, timestamps and layout entries, except the modification time the writer compares.
- Declared paths that resolve to no local place, and directories another program removes.
- SyncFleet.Step: a file listed under a tombstone is not kept in the revision, since readers take the last entry; later runs that count it when comparing file lists are not modelled.
- The retry of a rejected commit inside one invocation, at most three times: a rejected device simply plans again.
- The HTTP server's commit route, which records forks where the file remote refuses them; SyncFleet follows packages/core/src/remote/file.ts:517-567, Fold and Ancestry cover forks.
- SyncFleet.TwoRoundsConvergeExactlyWhen: the runs of both rounds have nothing put off; that a run can be put off forever by a busy file is not excluded.
- Journal.Applier.Remove: directories and tombstone bookkeeping (packages/core/src/apply.ts:421-457).
- Link creation, and reclaiming a stale process lock.
- Credentials.Adapter.Capture: the optional selection of references, which no caller passes.
- Credentials.Adapter.Materialize: the same selection.
- Rotation.Rotator.CommitRotation: a rejection for stale parents, since the other devices are idle.
- Zeroizing, serialization limits and metadata checks of the vault; record removals and shared native slots in CredentialFleet.
- I/O errors in the middle of a credential operation other than a value the vault refuses: they end the session like a crash.
- Rotation by several devices at once, and calibration of new parameters; other devices are idle during a rotation and its recovery.
- The per-surface digest of a commit.
- Content hashes and file names in reported marker ranges; a stored block list whose file vanished is used like a parsed one.
- linkedBy lists and reference reports of the ownership result, and surface ids other than by their order.
- Link entries, counters and layout in the scan, and a directory whose entries share a name.
- Reading a listing in pages: a device sees all rows it is shown at once.
- Timer clamping and clock steps backwards in the daemon; one reading of the clock serves each stretch between two awaits.
- Concurrent calls of the limiter and a clock that runs backwards.
