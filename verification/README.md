# Verified model of the hub's stateful core

This project models the parts of the hub where a mistake would lose data or leave two stores in
disagreement, and proves what they keep in every run.

- **Skill repositories** (`GitLevel`, `GitTree`, `GitStore`, `Paths`, `GitSeed`, `GitPackage`,
  `SkillArchive`, `ArchivePaths`, `ImportRoundTrip`, `FileEdits`, `LostFiles`): Git trees as canonical
  Merkle trees, the tree writers behind file edits, the archive parser, the initial tree and the
  package builder.
- **Branches and pull requests** (`RefProtocol`, `Requests`, `Landings`, `PullRequests`): file edits,
  restores, pushes and merges as interleaved steps over compare-and-set refs.
- **Cluster credentials** (`CredentialStore`, `ClientPool`, `RotationProbe`, `ClusterSaga`,
  `Rotations`, `ClusterLeaks`, `Outbox`, `OutboxRetries`): sealing and key rotation, the client cache
  and what a rotation probes through it, the create/rotate/cleanup saga with requests that may stop
  at any point, what the saga loses, and the outbox that schedules cleanup.
- **Reconcilers** (`Visibility`, `SandboxSync`): namespace visibility against the wildcard tuple, and
  sandbox and claim rows against what the cluster reports.
- **Catalogs** (`Versions`, `SkillSnapshots`): immutable tool versions and model revisions, and the
  merge of skill bindings into a run snapshot.

`Order` holds options, string order and white space.

Concurrent code is a state machine: every database, store or ref call is one step, and the theorems
range over all interleavings. Code that updates things in place is a class or a loop, proved against
a function of the old state. A call that can fail takes its outcome as a parameter.

Idealizations: an object hash is the object itself, so hashing is injective and has no cycles, and
a commit is its tree, parents and message. The AEAD opens a ciphertext only under the key, nonce and
authenticated data it was sealed with. Clocks and random refs are parameters. Comparing strings by
Unicode scalar values is comparing their UTF-8 bytes. The lookup of a tree entry by path, a library
call, splits the path at every slash.

Some properties that look natural are false of the code. For each of these there is an exact
condition, and an input or a run that breaks it: `RemoveUndoesUpsert` (`RemoveDoesNotUndo`),
`CreateRefusedExactly` (`CreateReplaces`), `CreateKeepsOthersExactly` (`CreateLoses`),
`UpdateKeepsOthersExactly` (`UpdateLoses`), `DeleteKeepsOthersExactly` (`DeleteLoses`),
`NormalizeExactly` (`GitFileAccepted`), `OrderMattersExactly` (`OrderMatters`), `ImportExactly` and
`LosslessExactly` (`ImportLoses`),
`MergedIsReviewedExactly` (`MergesUnreviewed`), `CacheRefinesExactly` (`StaleHitReturnsFirstClient`),
`CommittedIsProbedExactly` (`UnprobedCommit`), `LeaksExactly` (`CreateThenDeleteLeaks`,
`CommitThenStopLeaks`), `BackoffExactly` (`BackoffWraps`), `RetryCountsExactly` (`LateNakUndercounts`),
`SyncedAgreesExactly` (`OverlapBreaksAgreement`), `SeedStoresExactly` (`SeedKeepsOld`) and
`UpdateStoresExactly` (`UpdateKeepsOld`).

Where comments and code disagree, the code is modelled:

- `internal/gitengine/file.go:622-623` describes the directory order the other way round from the
  comparison at lines 624-634.
- `internal/data/kubernetes_outbox.go:263` gives the backoff as a power of the retry count; the code
  shifts by the incremented count, in 64 bits.

## Model

| member | source | states |
|---|---|---|
| `GitLevel.SortIsCanonical` | internal/gitengine/file.go:616-634 | Sorting entries with distinct valid names gives Git's canonical order, directories compared with a trailing slash |
| `GitLevel.CanonicalLevelIsUnique` | internal/gitengine/file.go:616-634 | Two canonical levels that find the same entry under every name are the same list |
| `GitLevel.ReplaceOrAppendSpec` | internal/gitengine/file.go:461-477 | Replacing or appending changes exactly one name and leaves a canonical level |
| `GitLevel.RemoveByNameSpec` | internal/gitengine/file.go:479-487 | Removing changes exactly one name and leaves a canonical level |
| `Order.StrLessExactly` | internal/gitengine/file.go:624-634 | String order is decided at the first difference |
| `Order.TrimExactly` | internal/biz/skill_archive.go:227 | Trimming takes white space off both ends and leaves none there |
| `GitTree.UpsertWellFormed` | internal/gitengine/file.go:388-421 | A write keeps unique names and canonical order at every level and leaves no empty directory |
| `GitTree.UpsertFrame` | internal/gitengine/file.go:397-421 | After a write the path resolves to the new leaf, its prefixes to directories, its extensions to nothing, and every unrelated path as before |
| `GitTree.UpsertFiles` | internal/gitengine/file.go:397-421 | The whole flat view of files after a write, for every path |
| `GitTree.RemoveWellFormed` | internal/gitengine/file.go:425-457 | A removal fails exactly when a parent is missing or a file, and otherwise keeps a canonical, pruned tree |
| `GitTree.RemoveFrame` | internal/gitengine/file.go:430-457 | The path and everything below it are gone, and every unrelated path resolves as before |
| `GitTree.RemoveFiles` | internal/gitengine/file.go:430-457 | The whole flat view of files after a removal, for every path |
| `GitTree.CanonicalForm` | internal/gitengine/file.go:388-477 | Two canonical pruned trees with the same file at every path are the same tree and have the same root hash |
| `GitTree.RemoveUndoesUpsert` | internal/gitengine/file.go:388-457 | Write then remove restores the root exactly when the path was fresh and no file stood at a proper prefix |
| `LostFiles.RemoveDoesNotUndo` | internal/gitengine/file.go:388-457 | Writing `a/b` over a file `a` and removing it does not bring `a` back |
| `GitStore.FindEntryInSlice` | internal/gitengine/file.go:489-496 | The search loop finds the first entry of the name |
| `GitStore.ReplaceOrAppendLoop` | internal/gitengine/file.go:461-477 | The loop computes the specified replacement |
| `GitStore.RemoveEntryByName` | internal/gitengine/file.go:479-487 | The loop computes the specified removal |
| `GitStore.ObjectStore.UpsertEntry` | internal/gitengine/file.go:397-421 | The recursive writer returns the hash of the specified tree, only adds objects, and leaves the whole new tree stored |
| `GitStore.ObjectStore.RemoveEntry` | internal/gitengine/file.go:430-457 | The recursive remover succeeds exactly when the specification does and returns the hash of that tree, which is stored |
| `Paths.SplitPath` | internal/gitengine/file.go:602-612 | The split loop returns the non-empty segments, whatever slashes surround them |
| `Paths.GuardedPathHasSegment` | internal/gitengine/file.go:191-200 | The path guard of the file operations leaves at least one segment |
| `Paths.SegmentsJoin` | internal/gitengine/file.go:602-614 | Joining segments and splitting again is the identity |
| `Paths.CleanIdempotent` | internal/biz/skill_archive.go:226-239 | Path cleaning is idempotent and its result splits into clean segments |
| `Paths.CleanKeepsMeaning` | internal/biz/skill_archive.go:231 | Cleaning a path does not change where it leads from any directory |
| `GitSeed.SeedFiles` | internal/gitengine/engine.go:311-340 | Seeding any file list gives a canonical pruned tree whose every path is what the list says |
| `GitSeed.SeedOrderIrrelevant` | internal/gitengine/engine.go:311-340 | Consistent archives with the same files seed the same root hash in any order |
| `GitSeed.OrderMattersExactly` | internal/gitengine/engine.go:311-340 | Every order of an archive's files seeds the same tree exactly when files whose paths meet are the same file |
| `LostFiles.OrderMatters` | internal/gitengine/engine.go:311-340 | An archive with `a` and `a/b` seeds another tree in another order |
| `GitSeed.WriteInitialTree` | internal/gitengine/engine.go:311-340 | The loop fails only on an empty list, returns the seeded root hash, and stores every tree and blob |
| `GitPackage.PackNamesSpec` | internal/gitengine/pack.go:57-74 | The listing is strictly sorted and names exactly the files of the tree |
| `GitPackage.BuildPackage` | internal/gitengine/pack.go:57-103 | The packaging loop computes the specified entries or fails where reading fails |
| `GitPackage.PackSpec` | internal/gitengine/pack.go:75-103 | Packaging readable names keeps their order and drops exactly the skipped ones |
| `GitPackage.SkippedExactly` | internal/gitengine/pack.go:75-103 | The name filter drops a clean path exactly when it contains two dots in a row |
| `ArchivePaths.DotDotExactly` | internal/gitengine/pack.go:76 | The dot test is the substring test for two dots |
| `GitPackage.ImportExactly` | internal/gitengine/pack.go:57-103 | For every archive of clean paths the package is sorted and holds exactly the files no later file was written at, above or below, and whose path contains no two dots in a row |
| `GitPackage.ImportThenPackage` | internal/gitengine/pack.go:57-103 | Of a prefix-free archive exactly the files whose path contains two dots in a row are missing |
| `SkillArchive.NormalizedPath` | internal/biz/skill_archive.go:226-239 | An accepted path is clean, has no parent segment, no colon and no backslash |
| `ArchivePaths.NormalizeExactly` | internal/biz/skill_archive.go:226-239 | Exactly which names are accepted, by their clean segments, and under which path they are stored |
| `ArchivePaths.GitFileAccepted` | internal/biz/skill_archive.go:235-237 | A file named `.git` below a directory is accepted |
| `ArchivePaths.IgnoredExactly` | internal/biz/skill_archive.go:241-243 | Exactly which accepted paths are skipped, by their segments |
| `SkillArchive.NormalizeRoot` | internal/biz/skill_archive.go:117-165 | The loops compute the specified root normalization with the same errors |
| `SkillArchive.RootNormalizedSpec` | internal/biz/skill_archive.go:117-165 | One prefix is taken off every path, contents and order stay, paths stay distinct, and a second time changes nothing |
| `SkillArchive.WrappedSkillHasText` | internal/biz/skill_archive.go:160-164 | A wrapped archive that is accepted has a SKILL.md with more than white space |
| `SkillArchive.CollectFiles` | internal/biz/skill_archive.go:49-98 | The accounting loop succeeds exactly when every entry is accepted, within the limits |
| `SkillArchive.ParseArchive` | internal/biz/skill_archive.go:37-115 | Parsing succeeds exactly when all checks hold, and the reported count and bytes are those of the returned files |
| `ImportRoundTrip.LosslessExactly` | internal/gitengine/engine.go:311-340 | The package of an archive with distinct clean paths holds all its files exactly when no path is a prefix of another and none contains two dots in a row |
| `LostFiles.ImportLoses` | internal/gitengine/engine.go:311-340 | An archive with `a` and `a/b` does not come back whole |
| `ImportRoundTrip.UploadThenPackage` | internal/biz/skill_archive.go:37-165 | Parse, seed and package together: everything comes back under its normalized path exactly under that condition, and nothing else does |
| `FileEdits.EditKeepsTree` | internal/gitengine/file.go:191-316 | Every accepted create, update or delete keeps the tree canonical and pruned |
| `FileEdits.CreateRefusedExactly` | internal/gitengine/file.go:191-206 | A create is refused exactly for a bad path, or for an existing entry when no segment of the path is empty |
| `LostFiles.CreateReplaces` | internal/gitengine/file.go:191-206 | Creating `a//b` is accepted and replaces the file `a/b` |
| `FileEdits.ChangeRefusedExactly` | internal/gitengine/file.go:235-303 | An update or delete is refused exactly for a bad path, an empty segment, a missing path or a stale sha |
| `FileEdits.CreateKeepsOthersExactly` | internal/gitengine/file.go:191-233 | On any path text, a create keeps every other file exactly when no file stands where a parent directory goes and no directory at the path itself |
| `LostFiles.CreateLoses` | internal/gitengine/file.go:191-233 | Creating `a/b` beside a file `a` loses `a` |
| `FileEdits.UpdateKeepsOthersExactly` | internal/gitengine/file.go:235-282 | An update keeps every other file exactly when the path names a file |
| `LostFiles.UpdateLoses` | internal/gitengine/file.go:235-282 | Updating a directory loses the files below it |
| `FileEdits.DeleteKeepsOthersExactly` | internal/gitengine/file.go:284-316 | A delete keeps every other file exactly when the path names a file |
| `LostFiles.DeleteLoses` | internal/gitengine/file.go:284-316 | Deleting a directory loses the files below it |
| `RefProtocol.StepShape` | internal/gitengine/file.go:591-598 | Every step of the protocol moves no head, or one head from the commit it expected; which requests land is the next group |
| `RefProtocol.HistoryIsAppendOnly` | internal/gitengine/file.go:191-316 | In every interleaving each head descends from all its earlier heads and no move is forgotten |
| `RefProtocol.LandedCommitsSurvive` | internal/gitengine/versioning.go:142-189 | Every landed commit stays reachable, and of two edits or restores based on one head at most one lands |
| `RefProtocol.HeadIsReplay` | internal/gitengine/file.go:191-316 | Serializability: from any point at which a branch exists, its later tree is the successful updates since then run one after another in landing order |
| `Landings.EditLandsExactly` | internal/gitengine/file.go:191-316 | In every run an edit that was not refused lands exactly when its branch has not moved since it read the head: the new head is one commit on that head with the edited tree, the move is recorded and nothing else changes; otherwise the edit is dropped |
| `Landings.RestoreLandsExactly` | internal/gitengine/versioning.go:142-189 | The same for a restore, whose commit has the tree of the restored one |
| `Landings.RefusedStartsNothing` | internal/gitengine/file.go:191-316 | A refused edit or a stale restore changes nothing |
| `Landings.EditHasRequest` | internal/gitengine/file.go:591-598 | Every edit in the history is the landing of a request that read the commit it replaced, with the branch unmoved in between |
| `RefProtocol.PrOutcomeIsFinal` | internal/data/pull_request.go:171-234 | Merged and closed are terminal and the target commit never changes |
| `RefProtocol.MergedMeansMoved` | internal/biz/skill_usecase.go:503-552 | A recorded merge really moved the target ref to the recorded descendant and was approved; the veto of a request for changes is part of `PullRequests.MergedExactly` |
| `RefProtocol.OneMergePerTarget` | internal/biz/skill_usecase.go:503-552 | Of all pull requests against one target commit at most one is merged into something else |
| `PullRequests.MergedExactly` | internal/biz/skill_usecase.go:503-552 | In every run a pull request ends merged into a commit exactly when one request loaded it open, found an approval and no request for changes, found target and source as expected, read that commit, found the target unmoved and the pull request still open, in that order and without stopping |
| `PullRequests.ReviewsDecide` | internal/biz/skill_usecase.go:514-527 | A merge goes on exactly when some review approves and none asks for changes, and is over otherwise |
| `PullRequests.MergedIsReviewedExactly` | internal/biz/skill_usecase.go:528-545 | What a pull request merged descends from the reviewed commit and is that commit exactly when the source branch did not move between the comparison and the second read of the request that merged it |
| `PullRequests.MergesUnreviewed` | internal/biz/skill_usecase.go:528-545 | A run in which a push between the comparison and the second read is merged and recorded unreviewed |
| `Requests.BackMeansStill` | internal/gitengine/engine.go:399-427 | A branch is where it was exactly when it has not moved since |
| `PullRequests.MovedButClosed` | internal/data/pull_request.go:171-234 | A close between the ref update and the record wins: the target has moved and the pull request stays closed |
| `PullRequests.ClosedAfterMerge` | internal/data/pull_request.go:171-234 | A concrete run in which the target moved and the pull request ended closed |
| `CredentialStore.AADInjective` | internal/data/kubernetes_credential_store.go:288-298 | The authenticated data determines cluster, ref and revision for strings below 2^32 bytes |
| `CredentialStore.AADCollidesAtTwo32` | internal/data/kubernetes_credential_store.go:288-298 | The bound is sharp: at 2^32 bytes two identities share their authenticated data |
| `CredentialStore.SealBindsIdentity` | internal/data/kubernetes_credential_store.go:117-204 | A ciphertext opens for its own identity, key and nonce and for nothing else |
| `CredentialStore.RewriteKeepsReads` | internal/data/kubernetes_credential_store.go:222-284 | Re-encrypting a row, even from a stale read of the same secret, changes no read of any locator |
| `CredentialStore.Store.PutWithRef` | internal/data/kubernetes_credential_store.go:117-160 | A successful put is readable under its locator and no other read changes; the exact refusal condition |
| `CredentialStore.Store.Delete` | internal/data/kubernetes_credential_store.go:208-218 | Deleting removes the reads of one ref and no other |
| `CredentialStore.Store.RotateKey` | internal/data/kubernetes_credential_store.go:222-284 | However it ends every read stays, only rows of the old version change, and they are fewer by the count; it is complete exactly when both keys are loaded, every row opens and the writes suffice, and otherwise goes as far as the writes allow |
| `ClientPool.CacheRefinesDirectBuild` | internal/data/kubernetes_client_pool.go:184-218 | With one credential per cluster and revision every interleaving returns the directly built client |
| `ClientPool.StaleHitReturnsFirstClient` | internal/data/kubernetes_client_pool.go:184-218 | Two credentials under one revision: the second caller gets the first one's client |
| `ClientPool.CacheRefinesExactly` | internal/data/kubernetes_client_pool.go:184-271 | The cache refines direct building in every interleaving exactly when each cluster and revision names one credential |
| `ClientPool.WaitersHaveAFlight` | internal/data/kubernetes_client_pool.go:184-218 | In every run a waiting caller waits for a build that is under way |
| `ClientPool.WaiterIsAnswered` | internal/data/kubernetes_client_pool.go:184-218 | From every such state a waiting caller is answered by at most four steps of its build |
| `ClientPool.InvalidatedMisses` | internal/data/kubernetes_client_pool.go:269-271 | After an invalidation no call for the cluster hits until a client is stored again |
| `RotationProbe.CommittedIsProbedExactly` | internal/biz/cluster_usecase.go:480-519 | Every commit rests on a successful probe by its request; the credential committed is the one probed exactly when no client was still cached that another credential's probe had left under the same revision |
| `RotationProbe.InvalidateClears` | internal/data/kubernetes_client_pool.go:269-271 | A committed rotation's invalidation leaves nothing cached, and the next call builds its own client |
| `RotationProbe.UnprobedCommit` | internal/data/kubernetes_client_pool.go:184-226 | A concrete run that commits a credential nobody probed |
| `ClusterSaga.CreateTxKeepsInv` | internal/biz/cluster_usecase.go:147-191 | The create transaction keeps the ownership invariant of refs, rows, events and requests |
| `ClusterSaga.CreateUndoKeepsInv` | internal/biz/cluster_usecase.go:193-206 | Compensating a create touches no other cluster's credential |
| `ClusterSaga.RotatePutKeepsInv` | internal/biz/cluster_usecase.go:489-493 | Storing the new credential makes its request the owner of the new ref |
| `ClusterSaga.RotateCasKeepsInv` | internal/data/cluster_repo.go:362-394 | The compare-and-set swaps current and retiring ref, or hands the new ref to its undo |
| `ClusterSaga.RotateEnqueueKeepsInv` | internal/biz/cluster_usecase.go:521-529 | The cleanup event takes over the old ref |
| `ClusterSaga.WorkerDeleteKeepsInv` | internal/data/kubernetes_outbox_worker.go:83-95 | The worker's delete, its retry and its last failure keep the invariant |
| `ClusterSaga.WorkerAckKeepsInv` | internal/data/kubernetes_outbox_worker.go:96-99 | An acknowledged event's ref is gone from the store |
| `ClusterSaga.CrashKeepsInv` | internal/biz/cluster_usecase.go:454-531 | A request that stops orphans at most the one ref it had to see to |
| `ClusterSaga.RunKeepsInv` | internal/biz/cluster_usecase.go:119-531 | The ownership invariant holds after every interleaving and stop |
| `ClusterSaga.CredentialAlwaysThere` | internal/biz/cluster_usecase.go:480-530 | In every run each cluster whose creation was not compensated names an existing credential with its own id and revision |
| `ClusterSaga.CleanupSparesRefsInUse` | internal/data/kubernetes_outbox_worker.go:69-106 | No cleanup event names a current ref or one a request still has to see to |
| `ClusterSaga.OneCommitPerRevision` | internal/data/cluster_repo.go:362-394 | At most one rotation commits per cluster and expected revision, and the credential revision is one plus the commits |
| `Rotations.RotatesExactly` | internal/biz/cluster_usecase.go:454-531 | In every run a step gives a cluster another credential exactly when it is the compare-and-set of a request that loaded the live row, stored the credential under a free revision, probed it successfully and finds the row live and unchanged |
| `Rotations.EveryCommitRotates` | internal/biz/cluster_usecase.go:454-531 | Every recorded commit is such a rotation |
| `Rotations.ProbeDecides` | internal/biz/cluster_usecase.go:500-509 | A probe goes on with the rotation exactly when it succeeds, and otherwise gives the credential up |
| `Rotations.FailedProbeNeverCommits` | internal/biz/cluster_usecase.go:500-509 | A credential whose probe failed is never any cluster's afterwards |
| `Rotations.FailedProbeIsUndone` | internal/biz/cluster_usecase.go:500-509 | It is gone for good once its compensating delete takes effect |
| `Rotations.ReplacedIsEnqueued` | internal/biz/cluster_usecase.go:510-531 | A committed rotation whose enqueue takes effect leaves a waiting cleanup event for the credential it replaced |
| `Rotations.ClaimedIsDeleted` | internal/data/kubernetes_outbox_worker.go:69-108 | The credential of a waiting event that a worker claims is gone for good once the worker's delete takes effect |
| `Rotations.FailedCreateIsUndone` | internal/biz/cluster_usecase.go:119-206 | The credential of a cluster whose authorization failed is gone for good once its compensating delete takes effect |
| `ClusterLeaks.LeakIsForever` | internal/biz/cluster_usecase.go:340-391 | A leaked credential stays stored, unused and undeletable whatever happens after |
| `ClusterLeaks.LeaksExactly` | internal/biz/cluster_usecase.go:454-531 | A stored credential no request has in hand is lost exactly when its request stopped, its delete or enqueue failed, its cluster was deleted, or its cleanup event failed |
| `ClusterLeaks.DeletedClusterLeaks` | internal/biz/cluster_usecase.go:340-391 | Deleting a cluster loses its credential, from every reachable state in which no request has it in hand |
| `ClusterLeaks.CreateThenDeleteLeaks` | internal/biz/cluster_usecase.go:340-391 | A concrete run: create and delete a cluster |
| `ClusterLeaks.StopAfterCommitLeaks` | internal/biz/cluster_usecase.go:511-529 | Stopping between commit and enqueue loses the old credential, from every reachable state in which no other request has it in hand |
| `ClusterLeaks.CommitThenStopLeaks` | internal/biz/cluster_usecase.go:511-529 | A concrete run: a rotation commits and its process stops |
| `Outbox.BackoffExactly` | internal/data/kubernetes_outbox.go:263-268 | All delays up to a limit are the intended ones exactly when the last product fits 64 bits |
| `Outbox.BackoffWraps` | internal/data/kubernetes_outbox.go:240-268 | With the default five seconds the delay turns negative within 31 retries |
| `Outbox.BackoffGrows` | internal/data/kubernetes_outbox.go:263-268 | In that range delays are positive, never shrink and never exceed an hour |
| `Outbox.SelectedSpec` | internal/data/kubernetes_outbox_worker.go:128-141 | A claim takes claimable rows only, in id order, and leaves one behind only when the limit is used up by smaller ids |
| `Outbox.Table.Claim` | internal/data/kubernetes_outbox.go:137-191 | A claim takes rows that are due, of its types and not held elsewhere, in id order up to the limit or 16, leaves one behind only when the limit is used up by smaller ids, and leases exactly those |
| `Outbox.Table.ClaimEventTypes` | internal/data/kubernetes_outbox_worker.go:111-163 | The typed claim refuses an empty type list, takes only due rows of its types, and defaults limit and lease |
| `Outbox.Table.RequeueStuck` | internal/data/kubernetes_outbox.go:197-210 | Exactly the expired in-progress rows become pending, nothing else changes |
| `Outbox.ClaimsAreALeaseApart` | internal/data/kubernetes_outbox.go:137-210 | In every run two claims of a row with no Nak between them are at least the first lease apart |
| `Outbox.RetryWaitsForBackoff` | internal/data/kubernetes_outbox.go:231-281 | In every run a row is not claimed again before the backoff of its last Nak |
| `Outbox.TerminalIsFinal` | internal/data/kubernetes_outbox.go:197-281 | In every run a done or failed row never changes and is never claimed |
| `OutboxRetries.RetryNeverOvercounts` | internal/data/kubernetes_outbox.go:231-281 | In every run the retry count is at most the number of Naks that changed the row |
| `OutboxRetries.TimelyWorkersAreExclusive` | internal/data/kubernetes_outbox.go:137-281 | When answers come within their leases one worker holds a row at a time and the retry count is exact |
| `OutboxRetries.TimelyNeverInterleaves` | internal/data/kubernetes_outbox.go:137-281 | Answers within their leases never interleave |
| `OutboxRetries.AckSettles` | internal/data/kubernetes_outbox.go:213-226 | An acknowledgement within the lease makes the row done for good, and no worker gets it again |
| `OutboxRetries.RetryCountsExactly` | internal/data/kubernetes_outbox.go:246-281 | After every run a row's retry count is the number of its Naks exactly when no Nak of it came between the read and the write of another |
| `OutboxRetries.LateNakUndercounts` | internal/data/kubernetes_outbox.go:246-281 | A concrete run in which late answers Nak a row twice and count once |
| `OutboxRetries.RowFailsExactly` | internal/data/kubernetes_outbox.go:252-262 | With one limit, a row whose Naks do not interleave is failed exactly after the Nak that follows its last allowed retry |
| `OutboxRetries.FailedIsExhausted` | internal/data/kubernetes_outbox.go:252-262 | With one limit, in every run, interleaved Naks included: a row is failed exactly when its stored count is one past the limit, and it then had more Naks than the limit |
| `Visibility.SyncedRowsAgree` | internal/biz/namespace_usecase.go:306-405 | In every interleaving whose tuple writes go the way the row still wants, with any call failing, a synced row has the wildcard exactly when public |
| `Visibility.SyncedAgreesExactly` | internal/biz/visibility_reconciler.go:94-118 | After any run, with any overlap and any call failing, a live synced row agrees with its tuple exactly when the last tuple write that took effect went the way the row wanted when it was made |
| `Visibility.NonOverlappingRunsAgree` | internal/biz/namespace_usecase.go:306-405 | Switches and passes that do not overlap keep agreement in every run |
| `Visibility.OverlapBreaksAgreement` | internal/biz/visibility_reconciler.go:94-118 | A concrete overlap leaves a private synced namespace with the wildcard tuple |
| `Visibility.Store.Switch` | internal/biz/namespace_usecase.go:306-405 | One switch keeps agreement under every fault; exactly when it finds nothing, changes nothing, conflicts or switches, and what row, revision and tuple it then leaves |
| `Visibility.SwitchCompensates` | internal/biz/namespace_usecase.go:306-405 | Among waiting others, a switch whose tuple call fails puts the row back and marks it |
| `Visibility.Store.ListBySyncStatus` | internal/data/namespace_repo.go:445-466 | The listing holds as many rows of the state as the limit allows, oldest first |
| `Visibility.Store.ConvergeOne` | internal/biz/visibility_reconciler.go:94-118 | One row is repaired or left, and no other row or settled tuple changes |
| `Visibility.Store.Pass` | internal/biz/visibility_reconciler.go:63-92 | A pass keeps agreement under faults and cancellation; a healthy one drains each unsynced state by the batch size or 100, oldest first, and leaves nothing unsynced when all rows fit the batch |
| `Visibility.PassDrains` | internal/biz/visibility_reconciler.go:63-92 | A healthy pass takes min(batch, count) rows off every unsynced state |
| `SandboxSync.Tables.SyncSandboxes` | internal/biz/sandbox_usecase.go:978-1087 | Under any call failures: a row goes exactly when it is unreported, neither CREATING nor DELETED, and its removal does not fail; a reported sandbox without a row is imported; the three counts |
| `SandboxSync.NamesAfterPass` | internal/biz/sandbox_usecase.go:978-1087 | Exactly which names are live after a pass, whatever fails, with the lifecycles that protect a row |
| `SandboxSync.RowsAfterPass` | internal/biz/sandbox_usecase.go:1006-1062 | Every row after a pass field by field: reported ones have what the cluster reports, imported ones are ready and belong to the namespace owner, all others are unchanged |
| `SandboxSync.PassConverges` | internal/biz/sandbox_usecase.go:978-1087 | After a failure-free pass a name is live exactly when it is reported or its row is CREATING or DELETED, and imported plus updated is the remote count |
| `SandboxSync.SecondPassIsQuiet` | internal/biz/sandbox_usecase.go:978-1087 | A second pass imports and removes nothing, updates all and changes only revisions |
| `SandboxSync.Tables.SyncClaims` | internal/biz/sandbox_usecase.go:1557-1747 | Under any call failures: every row is what its winning claim left, every reported claim has the reported status and the id of its row, claims neither reported, pending nor deleted are gone, and the three counts |
| `SandboxSync.ClaimsDeliver` | internal/biz/sandbox_usecase.go:1630-1725 | Whatever fails: an existing unlinked row is linked to the first known claim that names it or stays unlinked if that link fails, a new row belongs to the first known claim whose create does not fail, and every other row stays |
| `SandboxSync.ClaimCounts` | internal/biz/sandbox_usecase.go:1594-1722 | Whatever fails: updated counts the known reports that can be stamped, linked counts each sandbox a claim wins once |
| `SandboxSync.ClaimsBeforeSandboxes` | internal/biz/sandbox_reconciler.go:101-112 | Whatever fails: which names are live after claims then sandboxes, and who owns each row: its old owner, else its winning claim, else the namespace owner |
| `SandboxSync.Tables.ConvergeOne` | internal/biz/sandbox_reconciler.go:101-112 | A pass under any failures gives each new row to its winning claim's owner or else the namespace owner, and without failures to the first known claim's |
| `Versions.WriteExtends` | internal/data/tool.go:306-358 | No write of either mode changes a stored definition |
| `Versions.NewRowExactly` | internal/data/tool.go:306-330 | A new label is stored with the sent digest and revision, or the definition's digest and its first twelve characters |
| `Versions.StrictWriteExactly` | internal/data/tool.go:306-358 | A strict write succeeds exactly when it contradicts neither a stored version nor itself |
| `Versions.StrictOrderIrrelevant` | internal/data/tool.go:306-358 | The order of the map entries decides neither success nor any stored definition |
| `Versions.SeedStoresExactly` | internal/data/tool.go:223-262 | After a seed of any list, in any state, each sent label holds the sent definition exactly when it was stored with it, or was not stored and the first entry of the label has it; an unwritable list changes nothing |
| `Versions.SeedStoresAllExactly` | internal/data/tool.go:223-262 | A seed stores everything it sends exactly when it contradicts neither a stored version nor itself |
| `Versions.SeedKeepsOld` | internal/data/tool.go:223-262 | Seeding a label twice with different definitions leaves the first |
| `Versions.WriteVersionRows` | internal/data/tool.go:306-358 | The loop computes the specified rows or aborts where the specification does |
| `Versions.ToolRepo.Create` | internal/data/tool.go:150-166 | A create succeeds exactly for an id whose rows are all deleted and whose versions contradict no stored one; it adds one live row, and a refused create changes nothing |
| `Versions.ToolRepo.Update` | internal/data/tool.go:168-198 | Exactly when an update succeeds; the live row gets the latest label, stored definitions stay, and a refused update changes nothing |
| `Versions.ToolRepo.UpsertBuiltin` | internal/data/tool.go:223-262 | A seed succeeds exactly when every entry has a usable revision; stored definitions stay, new labels get an entry's definition, all rows of the id get the latest label, deleted ones stay deleted, and other ids and failed seeds change nothing |
| `Versions.ConflictChangesNothing` | internal/data/tool.go:150-198 | A conflicting strict write leaves every row of every table as it was |
| `Versions.RecreateExactly` | internal/data/tool.go:150-166 | Re-creating a deleted tool succeeds exactly when it contradicts none of its retained versions, which all stay as they were |
| `Versions.DeleteThenRecreate` | internal/data/tool.go:150-216 | Deleting a tool and creating it again with its versions brings every definition back |
| `Versions.DeletedRowsStayDeleted` | internal/data/tool.go:200-262 | In every run at most one row of a tool id is live, and a deleted row is never revived |
| `Versions.DefinitionsNeverChange` | internal/data/tool.go:150-358 | In every run, re-creation of deleted tools included, a stored tool definition or model revision never changes |
| `Versions.LatestRevisionIsStored` | internal/data/model.go:161-273 | In every run a profile's latest revision names a stored revision |
| `Versions.DeletedProfileKeepsId` | internal/data/model.go:217-235 | Deleting a profile hides it and forgets no revision, and its id is not free again |
| `Versions.UpdateStoresExactly` | internal/biz/model.go:504-519 | For any list of revisions sent along: after an update the latest revision holds the new content exactly when its label was stored with it, or was new and no other revision of it that is inserted first has another content; lists keyed by their labels are never refused |
| `Versions.CarriedUpdateExactly` | internal/biz/model.go:504-519 | An update that carries forward the stored revisions goes through and stores the content exactly when the label was new or already held it |
| `Versions.UpdateKeepsOld` | internal/biz/model.go:504-519 | Updating a profile under the label it has leaves the old content under it |
| `SkillSnapshots.Append` | internal/server/agent_http_resolver.go:112-136 | One more entry conflicts exactly when releases of its name disagree, and otherwise extends the merged list |
| `SkillSnapshots.MergeSnapshots` | internal/server/agent_http_resolver.go:86-136 | The merge succeeds exactly when same-name entries agree, with one entry per name in first-seen order: its last direct entry, else its first |
| `SkillSnapshots.MergeOrderIrrelevant` | internal/server/agent_http_resolver.go:86-136 | The order of the entries decides neither success, nor a name's release, nor whether it is direct |

## Left out

- Forced pushes and branch deletion: the hook-enforced Git protocol is foreign code; `RefProtocol` covers fast-forward pushes and new branches.
- Git object encoding, packfiles and SHA-1: hashes are ideal.
- Modes and timestamps in the package's zip headers: the model has names and contents.
- YAML metadata of SKILL.md and the synchronization of skill metadata after a merge: parsing of a foreign format.
- SkillArchive.ParseArchive: omits zip readability and the metadata and description checks of SKILL.md, which are foreign formats; file sizes are unbounded integers and the blank test knows ASCII white space only.
- Permission checks of all use cases: calls into the authorization service that gate an operation and change nothing.
- Cryptography and key derivation of the credential store: the AEAD is ideal.
- A database call that reports an error after its commit took effect: each transaction either applies and succeeds or changes nothing.
- Connection probing, TLS pinning and building of Kubernetes clients: foreign calls, taken as a function of the credential.
- Cluster, namespace and sandbox create and delete flows against Kubernetes: foreign calls around single row updates.
- Outbox payloads, the monitoring listing and the overflow of the retry counter itself: no step of the protocol reads them.
- Lifecycle recovery after a repaired visibility and the outbox row written by a switch: they touch neither the visibility nor the tuple.
- Namespaces created as public and shares to the wildcard subject: the first writes no tuple, the second is another writer of the same tuple.
- Warm pools: their core writes neither sandboxes nor claims.
- Sandbox rows whose display name differs from their Kubernetes name: the model has one name per row, as every row the sync creates has.
- The round-robin of the sandbox reconciler over namespaces: a scheduling order around the modelled pass.
- SandboxSync.Tables.SyncSandboxes: requires distinct names in the remote list, which the Kubernetes API guarantees within one namespace.
- RotationProbe.CommittedIsProbedExactly: takes a cache lookup with its build as one step and one cluster at a time; the interleavings inside a lookup are those of `ClientPool`.
- ClusterLeaks.LeaksExactly: the recovery of a failed cleanup event by an operator is not part of the model.
- Choosing the next revision label: the label is a parameter.
- Resolving skill bindings to releases: the merge starts from resolved entries.
- HTTP and gRPC services, agents' run planning, approvals and the relationship schema: no state shared with the modelled core.
