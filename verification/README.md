# Verification of the OSIx snapshot engine

OSIx records directories as snapshots in a content-addressed store. A snapshot is a chain of
layers, each the difference from the tree before it, with whiteouts (section "Whiteouts" of
the OCI Image Layer Filesystem Changeset specification) for what went away. Several fast
paths sit beside the simple meaning "a snapshot is this tree": a layer computed from an
overlay's upper directory, a mount that copies files up on demand, single-file reads that
search layers newest first, restores from per-file encrypted indexes, compaction, pruning,
push and pull. This project models them and proves that they agree with the simple meaning,
and says exactly when they do not.

Code that changes things step by step is imperative here too: classes for the restore target
(`Layers.Target`), the lazy mount (`LazyMount.Mount`), the store (`LocalStores.LocalStore`),
the workspace (`Workspaces.Workspace`), the replaced directory (`CommitTargets.TargetDir`),
the worker manager (`Workers.Manager`) and the remote repository
(`RegistryTransfers.Repository`); an array compacted in place for the whiteout merge; loops
where the source has loops.

`dafny verify dfyconfig.toml` checks the whole project.

## How it fits together

| files | what they hold |
|---|---|
| `Paths`, `Trees` | slash paths, their order, trees closed under parent directories |
| `Layers`, `RestoreProofs`, `Diff` | layers as header lists, unpacking, the layer between two trees, restoring a chain |
| `Overlay`, `OverlaySnapshot`, `OpaqueRestores` | what an overlay mount shows, the layer and tree recorded from its upper, and what that layer unpacks to |
| `MountViews`, `MovedViews`, `LazyMount` | copy-up, markers, moved directories and the view, refined to a plain map from path to entry |
| `Reads`, `LazyIndex`, `LazyRestore` | newest-first reads, the per-file index, restoring from indexes |
| `Store`, `Prune`, `RefUpdates`, `LocalStores` | chain walk, reachability, transactions on refs, pruning |
| `Histories`, `Workspaces`, `Compaction` | what it means that a ref can be restored; snapshot, fork, compact, and runs of them |
| `Chunks`, `Merkle`, `MerkleLists`, `RangeReads` | chunks of an encrypted file, ranges, the Merkle root, lists that share one; ranges read from a chain |
| `CommitTargets` | replacing a directory under errors and crashes |
| `Workers` | the autosnapshot worker manager under any interleaving |
| `Registry`, `RegistryTransfers` | push, write by write, and recursive pull |
| `Witnesses` | for every exact condition, an input on which the simple meaning fails |

`Layers.IsDelta(P, C, layer)` says, without an algorithm, what the layer from tree `P` to tree
`C` is; `Layers.DeltaUnique` shows there is only one. Every route that records a snapshot is
proved to produce that layer, so routes are equal list for list.

## Where the code does not keep the simple meaning

Each of these is proved with its exact condition, and with an input that shows it real:

* Restoring fails when a layer must delete a path whose last name holds a backslash, and only
  then (`RestoreProofs.RestoreDelta`, `RestoreProofs.RestoreChain`,
  `Witnesses.BackslashStopsRestore`).
* A newest-first read reports a file as deleted when the newest layer that carries it changed
  its type, and only then (`Reads.ReadHead`, `Witnesses.TypeChangeReadsAsDeleted`). The
  encrypted index has no such exception (`LazyIndex.ReadEncryptedHead`).
* Below a directory that was deleted as a whole, a newest-first read still returns the old
  bytes. What a read of any path that is not in the head returns is decided by the last
  snapshot that had it and the one that took it away (`Reads.ReadAbsent`,
  `Witnesses.DeletedDirectoryStillReads`).
* The loop of a range read goes on over every error whose text contains "not found", and the
  text quotes the name. In an unencrypted chain a range therefore comes from the read of the
  whole, unless the name contains "not found"; then it comes from the newest snapshot the name
  can be read from, whatever was deleted since (`RangeReads.PlainRangeIs`,
  `RangeReads.DeletedRange`, `Witnesses.NotFoundStillReads`).
* With opaque directories the recorded tree loses unchanged upper entries; it equals the view
  if and only if there are none (`OverlaySnapshot.RecordsViewIff`, `Witnesses.OpaqueLosesFile`).
* The layer of an upper with opaque directories unpacks to the recorded tree if and only if no
  name with a backslash is deleted and every unchanged directory that its whiteouts take away
  and an entry brings back happens to get the mode it had (`OpaqueRestores.RestoreUpperIff`);
  a new file in an unchanged opaque directory is enough for it to come back with mode 0755
  (`Witnesses.OpaqueLosesMode`), and a restore compares modes.
* In the lazy mount, making a directory over a deleted snapshot directory brings back what the
  snapshot has below it; it is the plain operation if and only if there is nothing
  (`LazyMount.Mount.Mkdir`, `Witnesses.MkdirBringsBack`). A write through an open handle to a
  deleted snapshot file brings that file back (`LazyMount.Mount.Write`,
  `Witnesses.WriteBringsBack`).
* Renaming a directory of the lazy mount moves only what has been copied up of it. It is the
  plain rename if and only if nothing else shows below the old place that the snapshot has
  differently below the new one (`LazyMount.Mount.RenameDir`, `MovedViews.RenamedPlainlyIff`);
  otherwise files are lost (`Witnesses.RenameLosesFile`).
* A range read that does not go through chunks adds offset and length before it compares, and
  panics exactly when the sum leaves 64 bits (`Chunks.SliceRange`,
  `Witnesses.LargestLengthPanics`); the chunk path never does (`Chunks.ReadRange`). In an
  encrypted chain the first way is taken for every file that the newest layer does not have
  (`RangeReads.ReadHeadRange`).
* A file of one chunk may read as a whole and fail for a range, because the whole has a blob of
  its own (`RangeReads.ReadHeadRange`, `RangeReads.OneChunkMissing`).
* A list of chunk digests of odd length has the same Merkle root as the list with its last
  digest repeated (`Merkle.OddListDuplicates`), so equal lengths are needed in
  `Merkle.SameRootCollides`. Lists of any lengths have one root if and only if repeating odd
  nodes completes them to the same list (`MerkleLists.SameRootIff`).
* Pruning keeps a surviving chain if and only if none of its parent links is a ref name that
  was deleted (`Prune.PruneKeepsChain`, `Witnesses.RefNameLinkBreaks`); links that are digests,
  which is all that snapshots write, always qualify (`Histories.GoodLinksAlive`).
* Pruning deletes a ref by the name a listing shows for its file. It removes exactly the refs
  that name deleted snapshots if and only if none of their files has space around its name
  (`Prune.DeletesExactlyIff`); the tag `: x` has such a file, and pruning it removes the ref `x`
  instead (`Witnesses.SpaceDeletesAnother`). If the listed name is that of a directory, pruning
  stops among the refs (`LocalStores.LocalStore.PruneLocalSnapshots`,
  `Witnesses.DirectoryStopsPruning`).
* A compaction with pruning can lose its own checkpoint. It does if and only if the root of the
  chain is not kept and its config is already the checkpoint's, the same second and the same
  message included (`Compaction.LosesIff`): the new checkpoint is that root, the plan deletes
  it, and no ref is left that names it (`Compaction.Compact`). This happens when the head is a
  checkpoint itself (`Witnesses.CheckpointLost`), and below a head that is kept
  (`Witnesses.CheckpointBelowLost`).
* A snapshot is taken on a mount as long as the mounted manifest and config load
  (`internal/osix/snapshot.go:57-65`); it can be restored, and the workspace stays sound, if and
  only if the mounted snapshot can be restored (`Workspaces.Workspace.Snapshot`,
  `Witnesses.MountWithoutLayers`). A fork of a digest is accepted with layers missing; the
  workspace stays sound if and only if none are (`Workspaces.Workspace.Fork`,
  `Witnesses.ForkWithoutLayers`).
* A push leaves the repository closed after every write if and only if no manifest is written
  before a parent that has no snapshot id to be written under and is not there already
  (`Registry.PushClosedIff`, `Witnesses.NamelessParentIsMissing`).
* A pull writes the ref of a snapshot before it has fetched the parents, newest first, so a
  snapshot id that occurs twice in a chain ends up on the oldest (`RegistryTransfers.Repository.Pull`,
  `Witnesses.PulledIdNamesTheOldest`).

## Assumptions

* The digest function is a parameter `h`. Where a result needs it (`Histories.Ideal`,
  `Chunks.CollisionFree`), `h` is injective and its values look like digests; otherwise it is
  arbitrary. A digest is a string starting with `sha256:`; its 64 hexadecimal digits are not
  modelled.
* Encryption is invertible with the right key and is left out of the blobs: layers, configs and
  manifests are values, and a lazy chunk or file is fetched as an outcome that may fail or hold
  wrong bytes.
* What else a config and the annotations of its manifest hold (the kind, the time in whole
  seconds, the message, the user) is one string of the config, `meta`.
* A single blob write, ref rename or directory rename happens or does not. Undoing renames in
  `writeRefsIfExpected` is assumed to work.
* `LazyMount.Permitted` states what the kernel has looked up before it sends a request.
* `scanTree` gives a sorted listing of a tree closed under parent directories
  (`Trees.IsListing`, `Trees.IsTree`), without names reserved for whiteouts where the source
  checks that (`Trees.Unreserved`).

## Model

| member | source | states |
|---|---|---|
| Layers.Target.ExtractLayer | internal/osix/snapshot.go:954-1039 | unpacking a layer into a directory: the files afterwards are what applying the headers one by one gives, and after a failure they are what some proper prefix of the headers left behind |
| Layers.TopsHideTheSame | internal/osix/snapshot.go:1304-1331 | leaving out whiteouts below other whiteouts hides exactly the same paths |
| Layers.DeltaUnique | internal/osix/snapshot.go:1274-1331 | there is only one layer, order included, that is the delta between two given trees, so any two routes that produce the delta agree list for list |
| RestoreProofs.ApplyWhiteouts | internal/osix/snapshot.go:1436-1451 | applying the whiteouts of a layer removes exactly the paths at or below one of them, unless a whiteout names something with a backslash; then it fails |
| RestoreProofs.ApplyEntry | internal/osix/snapshot.go:974-1036 | in a tree that has the parent directory and nothing of another type at the path, unpacking one entry succeeds and changes that path only |
| RestoreProofs.RestoreDelta | internal/osix/snapshot.go:954-1039 | for all trees P and C, type changes included, applying the delta layer to P yields exactly C, and fails exactly when a path to be deleted by name has a backslash in its last name |
| RestoreProofs.RootRestores | internal/osix/snapshot.go:954-1039 | the first layer of a chain restores any tree, backslashes included |
| RestoreProofs.RestoreChain | internal/osix/snapshot.go:298-332 | by induction over any chain, unpacking all layers root first gives the tree of the head, or fails exactly if some layer deletes a name with a backslash |
| Diff.MergeWhiteouts | internal/osix/snapshot.go:1304-1331 | the result is strictly sorted, without duplicates or empty paths, has no path below another, and covers exactly the paths its inputs cover |
| Diff.CompactInPlace | internal/osix/snapshot.go:1316-1330 | compacting over the front of the very slice that is still being read keeps exactly the topmost paths, in order |
| Diff.TypeChangeWhiteouts | internal/osix/snapshot.go:1293-1302 | exactly the changed paths whose type differs from the parent's are whited out |
| Diff.ChangedEntries | internal/osix/snapshot.go:594-604 | exactly the entries that are new or differ from the parent, still sorted by path |
| Diff.DiffLayerEntries | internal/osix/snapshot.go:1274-1291 | the two loops, the type-change pass and the merge together produce the one delta between parent and current tree |
| Overlay.ScanOverlayUpper | internal/osix/snapshot.go:1333-1387 | scanning an upper directory separates the markers from the files: the entries that are left are those of the upper that no whiteout covers, and each whiteout or opaque marker yields the path it stands for |
| Overlay.ViewIsTree | internal/osix/snapshot.go:80-96 | what an overlay mount shows is again a tree closed under parent directories, without reserved names |
| Overlay.ScannedUpper | internal/osix/snapshot.go:1333-1387 | the scan of any upper directory whose markers are plain files is a well-formed upper: a tree with no entry at or below a whiteout, and every opaque directory present or whited out |
| OverlaySnapshot.EffectiveOverlayWhiteouts | internal/osix/snapshot.go:582-592 | the whiteouts that name something the parent has, and no others |
| OverlaySnapshot.MergeOverlayTree | internal/osix/snapshot.go:334-362 | the merged list is the parent without what the whiteouts cover, plus the changed entries, plus parent directories above a changed entry that a whiteout had taken |
| OverlaySnapshot.RemovedIsDropped | internal/osix/snapshot.go:80-96 | without opaque markers the whiteouts found from the upper, once pruned, are those a full scan of the view would find |
| OverlaySnapshot.RecordsViewIff | internal/osix/snapshot.go:334-362 | the recorded tree is the mounted view if and only if no unchanged upper entry, with no changed entry below it, lies at or below an opaque directory |
| OverlaySnapshot.SnapshotUpper | internal/osix/snapshot.go:80-96 | the overlay branch of a snapshot: the layer has the topmost removed paths and the changed entries of the upper, the recorded tree is the merge of the two with the parent; without opaque markers the layer is the delta from the parent to the mounted view; the recorded tree is the view exactly when nothing is lost to opaque markers |
| OverlaySnapshot.RecordBothWays | internal/osix/snapshot.go:80-107 | recording a mount from its upper and recording it by a full scan of what it shows give the same layer and the same tree, and that layer restores over the parent to the tree |
| OpaqueRestores.RestoreUpper | internal/osix/snapshot.go:954-1039 | unpacking the layer recorded from any upper, opaque directories included, over the parent gives the recorded tree, but for the modes of directories that its whiteouts take away and no entry names; it fails exactly if a name with a backslash is deleted |
| OpaqueRestores.RestoreUpperIff | internal/osix/snapshot.go:954-1039 | that is the recorded tree itself if and only if no such name is deleted and each of those directories gets its mode back from the first entry below it |
| MountViews.WalkSeesView | internal/osix/lazy_fuse_linux.go:384-393 | walking lookups from the root, one name at a time and each in the directory found before, find at every path exactly the entry the view has there, and nothing where it has none |
| MountViews.LookupSeesView | internal/osix/lazy_fuse_linux.go:602-623 | one lookup in a directory that is visible finds the entry of the view, although it does not look at the directories above |
| MountViews.PutShows | internal/osix/lazy_fuse_linux.go:395-464 | putting an entry into the upper and dropping its marker changes the view at that path alone, except that a new directory uncovers what the snapshot has below it |
| MountViews.MarkShows | internal/osix/lazy_fuse_linux.go:774-783 | a marker takes its path and everything below it out of the view and nothing else |
| MovedViews.MovedShows | internal/osix/lazy_fuse_linux.go:507-517 | after the upper's directory and the markers in it have been moved, the mount shows at and below the new place what the upper had at and below the old one, and the snapshot entries there that nothing of it hides |
| MovedViews.RenamedPlainlyIff | internal/osix/lazy_fuse_linux.go:466-519 | the view after a directory rename is the plainly renamed view if and only if, wherever the upper is silent, the snapshot has the same below both places |
| LazyMount.Mount.EnsureParentDir | internal/osix/lazy_fuse_linux.go:724-744 | copying up the directories above a path succeeds exactly if the parent directory is visible, and changes nothing that is visible |
| LazyMount.Mount.CopyUpMetadata | internal/osix/lazy_fuse_linux.go:695-722 | copying up a directory or link succeeds exactly if it is visible and changes nothing that is visible |
| LazyMount.Mount.CopyUpFile | internal/osix/lazy_fuse_linux.go:661-693 | copying up a file changes nothing visible for a visible file, and brings a deleted snapshot file in a visible directory back |
| LazyMount.Mount.Write | internal/osix/lazy_fuse_linux.go:305-322 | a write puts the data at the offset, zero-filling a gap, in that file only; exactly when it fails and what the deleted-file case does |
| LazyMount.Mount.Setattr | internal/osix/lazy_fuse_linux.go:324-358 | chmod and truncate change that entry's mode or bytes and nothing else, a setattr with neither changes nothing visible, links included; it fails exactly when the bytes of a snapshot file cannot be read or the mount is read-only |
| LazyMount.Mount.CreateWhiteout | internal/osix/lazy_fuse_linux.go:774-783 | removes a snapshot path and all below it from the view |
| LazyMount.Mount.Unlink | internal/osix/lazy_fuse_linux.go:625-659 | unlink and rmdir remove the path and what it holds, whether it lives in the upper, in the snapshot, or in both, and refuse a wrong kind or a missing path |
| LazyMount.Mount.Make | internal/osix/lazy_fuse_linux.go:395-464 | create, symlink and mkdir at an unseen path add that entry; a directory also uncovers the snapshot's entries below it |
| LazyMount.Mount.Mkdir | internal/osix/lazy_fuse_linux.go:395-416 | mkdir is the plain operation on the map if and only if the snapshot has nothing below the path |
| LazyMount.Mount.Rename | internal/osix/lazy_fuse_linux.go:466-519 | renaming a file or link moves its entry, replacing a file or link at the target, and either does all of it or changes nothing visible |
| LazyMount.Mount.RenameDir | internal/osix/lazy_fuse_linux.go:466-519 | of a directory, with or without a directory at the new place: exactly what shows afterwards, and that this is the plain rename if and only if nothing is left behind |
| LazyMount.Mount.Do | internal/osix/lazy_fuse_linux.go:395-744 | every request the kernel lets through, a directory rename if all of it has been copied up and nothing of the snapshot lies below the new place, acts on the view as on a plain map, and fails exactly when it needs bytes of a snapshot file that cannot be read or the mount is read-only |
| LazyMount.Mount.Run | internal/osix/lazy_fuse_linux.go:395-744 | for every run of writes, truncates, chmods, touches, creates, mkdirs, symlinks, unlinks, rmdirs and renames, walking lookups see what the same run does to a plain map of paths, provided no directory is made where the snapshot has something below; without the proviso they see that plus what such a directory uncovers; each request succeeds exactly if the kernel lets it through, the mount is writable and the bytes it needs are in the upper or can be read, a directory rename moreover only if nothing would be left behind |
| LazyMount.RunIsPure | internal/osix/lazy_fuse_linux.go:395-744 | a run that makes no directory over snapshot content is a run on a map that knows of no snapshot |
| LazyMount.RawScan | internal/osix/snapshot.go:1333-1387 | scanning the mount's upper directory gives back its entries and its markers, with no opaque ones |
| LazyMount.Mount.Snapshot | internal/osix/snapshot.go:80-96 | a snapshot of the mount records exactly the tree it shows, with the delta layer from the mounted snapshot |
| LazyMount.Mount.RunAndSnapshot | internal/osix/lazy_fuse_linux.go:466-744 | after any run, the recorded tree is the plain run's tree and the layer is the one a full scan would have recorded |
| Reads.ReadFileFromLayer | internal/osix/lazy_read.go:156-197 | the first header about the path decides: found, deleted, or not a regular file |
| Reads.ReadSnapshotFile | internal/osix/lazy_read.go:15-79 | layers are asked newest first and the first one that says something decides |
| Reads.DeltaSays | internal/osix/lazy_read.go:156-197 | what a delta layer says about any path, in terms of the two trees: deleted if the path is whited out by name, else the entry if it changed, else nothing |
| Reads.ReadHead | internal/osix/lazy_read.go:15-79 | for every path of the head tree of every chain the read returns the bytes a restore would write, except exactly when the newest layer that carries the path changed its type |
| Reads.ReadAfterDelete | internal/osix/lazy_read.go:15-79 | a path the last snapshot removed reads as deleted only if it is whited out by its own name; below a removed directory the read answers as before the removal |
| Reads.ReadAbsent | internal/osix/lazy_read.go:15-79 | by induction over any history, for every path the head does not have: absent if no snapshot had it; deleted if the snapshot that took it away names it, or the last one that had it reads as deleted; otherwise the bytes of the last snapshot that had it |
| LazyIndex.CreateIndex | internal/osix/lazy_encrypted.go:58-148 | the index has a record for every whiteout and every regular file of the layer and no other, sorted by path with "file" before "whiteout" |
| LazyIndex.ReadIndex | internal/osix/lazy_encrypted.go:288-352 | a path reads as deleted only if the index has whiteouts for it and no file, whatever their order was when the index was built |
| LazyIndex.ReadLayerIndex | internal/osix/lazy_encrypted.go:58-148 | building the index of a layer and looking a path up in it answers from the layer: its bytes if it carries the file, else deleted if it whites the path out |
| LazyIndex.ReadEncryptedFile | internal/osix/lazy_read.go:15-79 | indexes are asked newest first and the first answer decides |
| LazyIndex.ReadEncryptedHead | internal/osix/lazy_encrypted.go:106-111 | every regular file of the head tree of every chain reads as its bytes, type changes included |
| LazyIndex.RestoreSource | internal/osix/snapshot.go:484-499 | succeeds for every entry of the head tree and names the newest snapshot that has this very entry while the one before it has not |
| LazyIndex.IntroducedByLayer | internal/osix/snapshot.go:484-499 | the layer of the snapshot that introduced an entry carries exactly that entry |
| LazyRestore.RestoreInTwoPasses | internal/osix/snapshot.go:419-482 | writing all directories first and all files and links after them gives the whole tree: no entry meets a missing parent or something of another type |
| LazyRestore.ReadFromSource | internal/osix/snapshot.go:439-462 | reading a head file in the snapshot that introduced it always finds the file's bytes |
| LazyRestore.RestoreFromSnapshotTree | internal/osix/snapshot.go:419-482 | restoring from per-file indexes gives the head tree for every chain, also where unpacking layers fails on a backslash |
| Store.ChainUnique | internal/osix/store.go:440-462 | over any store contents a ref has at most one complete chain |
| Store.ChainHasNoRepeats | internal/osix/store.go:440-462 | a complete chain contains no snapshot twice |
| Store.Reverse | internal/osix/store.go:458-460 | swapping from both ends reverses the list in place |
| Store.SnapshotChain | internal/osix/store.go:440-462 | for any store contents, with cyclic or dangling links, the walk stops; it returns the one complete root-first chain if there is one and fails only if there is none |
| Store.ListedIsTrimmed | internal/osix/store.go:556-566 | turning a ref file into its listed name and back gives the file without the space around it, and nothing else changes |
| Prune.DeletesExactlyIff | internal/osix/compact.go:147-160 | deleting by listed names removes exactly the refs that name deleted snapshots if and only if none of their files has space around its name |
| Prune.PruneKeepsChain | internal/osix/compact.go:127-186 | a surviving ref still loads the identical chain with every blob of it, shared or not, if and only if no link of it was a deleted ref name |
| LocalStores.LocalStore.ReachableBlobDigests | internal/osix/compact.go:188-209 | exactly the digests reached from some ref: its target, and all manifests, configs and layers of its chain if that is complete |
| LocalStores.LocalStore.PruneLocalSnapshots | internal/osix/compact.go:127-186 | removes exactly the files that listed refs to deleted snapshots are found under by name, removes only candidate blobs no remaining ref reaches, and on success leaves no unreachable candidate; it fails exactly if one of the listed names is that of a directory, and then touches no blob, or if an unreachable candidate is a malformed digest |
| LocalStores.LocalStore.WriteRefsIfExpected | internal/osix/store.go:276-363 | all or nothing: success exactly if every update is acceptable and every rename works, and then all are installed in order; otherwise every ref is as before, also when a name occurs twice |
| LocalStores.LocalStore.PrepareUpdates | internal/osix/store.go:294-341 | the check loop accepts exactly well-formed digests under names that are files, no two names for one file, and existing refs that hold the expected value |
| LocalStores.LocalStore.CommitUpdates | internal/osix/store.go:342-361 | the renames are all done, or a failed one leaves all refs as they were |
| LocalStores.LocalStore.Rollback | internal/osix/store.go:345-354 | undoing the renames backwards restores the original refs even if one file was renamed over several times |
| RefUpdates.CommittedInstalls | internal/osix/store.go:342-361 | the file-by-file commit has the effect of installing the updates by name, and what was saved for each file is its value before the transaction |
| Histories.WholeRestores | internal/osix/snapshot.go:298-332 | the layers of a snapshot with a complete chain, folded root first, give the tree in its config, or fail exactly on a backslash deletion |
| Histories.WholeKept | internal/osix/store.go:440-462 | a snapshot keeps its chain and its tree on every disk that still has the chain's blobs, whatever happened to refs and other blobs |
| Histories.GoodLinksAlive | internal/osix/compact.go:127-186 | chains written by snapshots link by digest, so deleting refs cannot break them |
| Workspaces.Workspace.Snapshot | internal/osix/snapshot.go:29-243 | of a plain directory, or of a mount by its recorded source digest whether or not its chain is complete, an overlay through its upper: blobs are written before refs; failure leaves every ref as it was and happens exactly on a parent that does not load, a reserved name, an unacceptable ref or a failed rename; success makes exactly the id, the tags and `latest` stand for the scanned tree, under a config with the right parent, sequence and tree; the new snapshot can be restored, and the workspace stays sound, if and only if the mounted one can be restored |
| Workspaces.Workspace.PlanSnapshot | internal/osix/snapshot.go:42-96 | the config has the right parent, sequence and tree, and the layer is the delta from the tree in the parent's config, also when both come from an overlay's upper, and also when nothing below the parent is left |
| Workspaces.WholeOnlyOnWhole | internal/osix/snapshot.go:48-65 | a snapshot can be restored only if the one it was taken on can, so a mount whose chain is gone makes a snapshot that cannot |
| Workspaces.NewWholeIff | internal/osix/snapshot.go:42-206 | once its three blobs are stored, a new snapshot can be restored if and only if its parent can, for any parent whose manifest and config load |
| Workspaces.SameConfigSameDigest | internal/osix/snapshot.go:145-214 | snapshots with equal configs are one snapshot: the config decides the layer and so the digest |
| Workspaces.Workspace.WriteSnapshot | internal/osix/snapshot.go:107-206 | after layer, config and manifest are written the new digest loads with its config and tree, it has a complete chain if and only if its parent has, and no existing ref changed its meaning |
| Workspaces.Workspace.Publish | internal/osix/snapshot.go:207-243 | the ref updates point the named files at the new target all together or not at all, and the workspace stays sound if and only if that target can be restored |
| Workspaces.Workspace.Restore | internal/osix/snapshot.go:245-332 | a restored directory is the tree in the config of the ref, and for a snapshot with a complete chain restoring succeeds exactly if no layer deletes a name with a backslash |
| Workspaces.Workspace.ValidateChain | internal/osix/snapshot.go:676-714 | accepts a ref exactly if it has a complete chain with increasing sequence numbers, no parent at its root, parent links to the item before, and one base |
| Workspaces.WholeValidates | internal/osix/snapshot.go:676-714 | every snapshot this workspace writes passes chain validation |
| Workspaces.Workspace.Fork | internal/osix/snapshot.go:655-674 | succeeds exactly for a source whose chain validates and a target that can be a ref; then the tag stands for the tree of its source and every other ref for what it stood for before; the workspace stays sound if and only if the source can be restored |
| Compaction.DeleteCandidates | internal/osix/compact.go:49-64 | exactly the snapshots of the chain that are not kept explicitly, as signed, or as the branch head |
| Compaction.PlanCompaction | internal/osix/compact.go:24-64 | the checkpoint tag, the tags without repeats, and the snapshots to delete are those the policy asks for |
| Compaction.CandidatesAreDigests | internal/osix/compact.go:127-186 | candidates from a complete chain are well formed, so pruning after a compaction cannot stop among the blobs |
| Compaction.PruneKeepsSound | internal/osix/compact.go:127-209 | after pruning, every remaining ref still has its complete chain and its tree |
| Compaction.CheckpointSource | internal/osix/compact.go:71-98 | works exactly if the live directory still matches the head, or, without one, if the head can be restored; the files are then the head's tree |
| Compaction.PrunePlan | internal/osix/compact.go:116-123 | works exactly if no listed name to be removed is that of a directory; then exactly the files that listed refs to planned snapshots are found under go, the other refs keep their trees, and no blob of a planned snapshot is left unless a ref still reaches it; otherwise some of those files go and no blob |
| Compaction.LosesIff | internal/osix/compact.go:49-64 | the plan deletes the very checkpoint that is made if and only if the root of the chain is not kept and has the config of the checkpoint |
| Compaction.Compact | internal/osix/compact.go:11-125 | how a compaction ends is decided by the policy, the chain, the source, the renames and the names of the refs to be pruned, in that order, all of it known before; the plan is the one the policy asks for; the checkpoint has no parent and the tree of the old head, and is one of the old snapshots exactly if that one has its config; unless the root of the chain is such a one and not kept, the checkpoint stands and `latest` names it; if it is, no ref names it any more; exactly the files of its snapshot and of the plan's tags, up to the first that cannot be written, are moved to it; pruning removes the refs to unkept snapshots of the chain and every blob of theirs that no ref reaches |
| Compaction.Step | internal/osix/compact.go:11-125 | snapshot, fork and compact each do to the store and to the trees of the refs exactly what their specification says, and keep every ref restorable |
| Compaction.Run | internal/osix/snapshot.go:29-243 | in every run of snapshots (from `latest` or from a mount of any digest with a complete chain, whether or not a ref still names it), forks and compactions, after every command every ref has a complete chain whose layers give the tree in its config, and every command did exactly what its specification says |
| Merkle.MerkleRoot | internal/osix/lazy_encrypted.go:200-218 | the level loop ends for every list and returns the root of the pairwise tree that repeats the last node of odd levels |
| Merkle.SameRootCollides | internal/osix/lazy_encrypted.go:200-218 | two different digest lists of equal length with one root hand over two inputs with the same digest, so under an injective digest equal roots mean equal lists |
| Merkle.OddListDuplicates | internal/osix/lazy_encrypted.go:200-218 | without equal lengths this is false for every odd list longer than one: repeating the last digest keeps the root |
| MerkleLists.SameRootIff | internal/osix/lazy_encrypted.go:200-218 | for lists of any lengths, the empty one included, and an injective digest under which no leaf is the digest of a pair: they have one root if and only if repeating odd nodes, level by level, completes them to the same list |
| MerkleLists.SameRootIsFront | internal/osix/lazy_encrypted.go:200-218 | of two lists with one root the shorter is the front of the longer |
| Chunks.CreateChunks | internal/osix/lazy_encrypted.go:162-198 | chunks are contiguous from zero, at most 64 KiB, all but the last full, end at the end of the data, one empty chunk for no data, each with the digest of its piece |
| Chunks.PiecesJoin | internal/osix/lazy_encrypted.go:162-198 | the first chunks joined are the data up to where they end; all of them are the data |
| Chunks.ReadChunks | internal/osix/lazy_encrypted.go:220-262 | a range succeeds exactly if every chunk that overlaps it is accepted, and is then that slice of the file |
| Chunks.ReadRange | internal/osix/lazy_encrypted.go:354-413 | for every 64-bit offset and length: negative ones fail, others give the slice cut off at the end of the file, and no addition leaves 64 bits |
| Chunks.ReadFile | internal/osix/lazy_encrypted.go:288-352 | a whole-file read returns the recorded bytes or fails, and it fails exactly if a needed chunk or the whole blob is not accepted |
| Chunks.ReadBoth | internal/osix/lazy_encrypted.go:288-413 | whenever a file of several chunks reads whole, every range of it reads, as the slice of the whole |
| Chunks.SliceRange | internal/osix/lazy_read.go:137-146 | the slice cut off at the end of the data, with a panic exactly when the range starts inside the data and offset plus length leaves 64 bits |
| RangeReads.ReadWhole | internal/osix/lazy_read.go:15-79 | over a chain of encrypted layers with blobs missing or damaged, the newest layer that mentions the name decides; its file reads exactly if the blobs it needs are accepted |
| RangeReads.ReadSnapshotFileRange | internal/osix/lazy_read.go:81-135 | in an encrypted chain: a file in the index of a snapshot is read by its chunks; anything else is read whole from that snapshot and cut, with the panic that has; the next older snapshot is tried exactly after an error whose text contains "not found" |
| RangeReads.ReadHeadRange | internal/osix/lazy_read.go:81-135 | a range of any regular file of the head of an encrypted chain is the clamped slice of the whole; when it works is decided by the chunks under the range if the newest layer has the file or the whole cannot be read, the latter only if all errors on the way say "not found", and otherwise by the sum staying within 64 bits |
| RangeReads.ReadPlainRange | internal/osix/lazy_read.go:81-135 | the same loop over unencrypted layers, for chains that snapshots wrote |
| RangeReads.PlainRangeIs | internal/osix/lazy_read.go:124-134 | a range is cut from the read of the whole, or, if the name contains "not found", from the newest snapshot from which the name can be read at all |
| RangeReads.DeletedRange | internal/osix/lazy_read.go:124-134 | a range of a file that was deleted by its own name is its old bytes if and only if its name contains "not found" |
| RangeReads.OneChunkMissing | internal/osix/lazy_encrypted.go:317-349 | a stored file of one chunk whose whole reads and whose range fails |
| CommitTargets.TargetDir.RecoverRestoreBackup | internal/osix/snapshot.go:1217-1234 | from every state a crash can leave, recovery ends with the last complete committed tree in place and never puts a half-deleted backup back |
| CommitTargets.TargetDir.CommitRestoreTarget | internal/osix/snapshot.go:1193-1215 | under any failure or crash between two calls the target or its backup is the complete old or the complete new tree; an error after the change can only come from deleting the backup |
| CommitTargets.TargetDir.Restore | internal/osix/snapshot.go:245-296 | validate, recover, validate, stage, commit: success leaves exactly the new tree; a refusal before recovery touches nothing, not even a leftover backup; a non-empty target keeps its tree unless force is set |
| CommitTargets.TargetDir.RestoreRun | internal/osix/snapshot.go:1193-1234 | over any sequence of restores, each failing or crashing anywhere, the target recovers to the complete tree of the last attempt that moved its tree in, or the one there was first |
| CommitTargets.TargetDir.RecoverExtractTarget | internal/osix/extract.go:213-233 | with both a target and a backup present it refuses and touches neither |
| CommitTargets.TargetDir.CommitExtractTarget | internal/osix/extract.go:235-262 | the old tree is in the target or complete in the backup until the payload is installed, whatever fails |
| CommitTargets.TargetDir.Extract | internal/osix/extract.go:81-167 | success leaves exactly the payload; a leftover backup beside a target stops every attempt without a change |
| CommitTargets.TargetDir.ExtractRun | internal/osix/extract.go:213-262 | over any sequence of failing and crashing extractions the target holds, or its backup keeps, a complete tree of the start or of one attempt |
| Workers.AlwaysInv | internal/csinode/worker.go:61-150 | in every interleaving of start, stop, reconcile, stopAndWait, stopAll and exits the map holds exactly the handles of live workers, and waiters wait for handles that exist |
| Workers.AtMostOneLive | internal/csinode/worker.go:88-98 | in every interleaving a worker is live exactly while its own handle is in the map, and a volume never has two live workers |
| Workers.FinishRemovesOnlyItself | internal/csinode/worker.go:143-150 | finish finds its own handle, removes no other, and can then close its channel once |
| Workers.ExitIsForever | internal/csinode/worker.go:143-150 | once a worker's channel is closed it is never closed again and that worker never touches the map again |
| Workers.NilMeansExited | internal/csinode/worker.go:108-124 | for a call at any point of any interleaving and whatever follows: if the call returned nil, the worker that was live for that volume at the call has exited and is not in the map, or none was live |
| Workers.CallSeesLiveWorker | internal/csinode/worker.go:108-124 | stopAndWait returns at once exactly if the volume has no live worker, and otherwise waits for the live one, which it has cancelled |
| Workers.Manager.DoStart | internal/csinode/worker.go:88-98 | the critical section of start on the manager's fields is the atomic step that the interleavings use |
| Workers.Manager.DoStop | internal/csinode/worker.go:100-106 | the critical section of stop is its atomic step |
| Workers.Manager.DoCancelUnseen | internal/csinode/worker.go:78-84 | the loop over the map in reconcile, in any order, is its atomic step |
| Workers.Manager.DoCallStopAndWait | internal/csinode/worker.go:108-118 | the locked part of stopAndWait is its atomic step |
| Workers.Manager.DoFinish | internal/csinode/worker.go:143-149 | the locked part of finish is its atomic step |
| Registry.PushClosedIff | internal/osix/registry.go:228-266 | after every single write of a push each manifest in the repository has its config, layers and parent there, if and only if no manifest is written whose parent is neither written nor there already |
| Registry.PushAlwaysClosed | internal/osix/registry.go:228-266 | with every parent so covered, all prefixes of the writes leave the repository closed |
| Registry.WholeIsLinked | internal/osix/registry.go:228-266 | every snapshot with a complete chain has all that a push reads |
| RegistryTransfers.Repository.CheckTags | internal/osix/registry.go:268-292 | passes exactly if no parent is expected or every branch tag is at the expected parent or already at the new head |
| RegistryTransfers.Repository.Push | internal/osix/registry.go:203-266 | a failed precondition writes nothing; wherever the connection breaks the repository has a prefix of the writes, root first, config and layers before manifest, and a closed repository is still closed |
| RegistryTransfers.Repository.FetchBlob | internal/osix/registry.go:370-382 | a blob is in the store afterwards, fetched only if it was missing, with content of the right digest, and nothing already there changes |
| RegistryTransfers.Repository.Pull | internal/osix/registry.go:320-368 | succeeds if the repository has the complete chain with all layers and the ids can be refs, and then the store has every blob of that chain and each snapshot id names the oldest snapshot that carries it; otherwise it stops at a link that cannot be pulled, or has not ended yet because the parent links have not, and the store has the blobs and the refs of exactly the snapshots above that link |
| RegistryTransfers.ClosedHasChain | internal/osix/registry.go:320-368 | a closed repository that has the head's manifest answers a pull with the identical chain of the local store |
| RegistryTransfers.CopiedIsWhole | internal/osix/registry.go:320-368 | a store that has received all blobs of a chain has the snapshot complete, with the same tree |
| RegistryTransfers.PulledIsSound | internal/osix/registry.go:320-368 | pulling a snapshot with its complete chain keeps a workspace sound, and refs that no id of the chain names keep their trees |
| RegistryTransfers.PushAndPull | internal/osix/registry_test.go:26-61 | pushing a snapshot to a closed repository and pulling it into another store, by digest or by tag, gives the identical chain and the identical tree, and a sound workspace stays sound |
| Witnesses.BackslashStopsRestore | internal/osix/snapshot.go:1436-1451 | a tree with one such name, and the failed restore of its deletion |
| Witnesses.TypeChangeReadsAsDeleted | internal/osix/lazy_read.go:156-197 | a directory that became a file: the chain restores to the file, the read says deleted |
| Witnesses.DeletedDirectoryStillReads | internal/osix/lazy_read.go:15-79 | a file below a deleted directory, still read with its old bytes |
| Witnesses.OpaqueLosesFile | internal/osix/snapshot.go:594-604 | an unchanged file in an opaque directory: shown, and missing from the recorded tree |
| Witnesses.OpaqueLosesMode | internal/osix/snapshot.go:954-1039 | an unchanged opaque directory with one new file: its mode after unpacking is another |
| Witnesses.MkdirBringsBack | internal/osix/lazy_fuse_linux.go:395-416 | rmdir, then mkdir, and the file in it is there again |
| Witnesses.WriteBringsBack | internal/osix/lazy_fuse_linux.go:305-322 | unlink, then a write, and the file is there again |
| Witnesses.RenameLosesFile | internal/osix/lazy_fuse_linux.go:466-519 | a snapshot directory renamed before anything in it was written: its file is at neither place |
| Witnesses.LargestLengthPanics | internal/osix/lazy_read.go:137-146 | two bytes, offset 1, the largest length |
| Witnesses.NotFoundStillReads | internal/osix/lazy_read.go:124-130 | the deleted file `not found`: a read says deleted, a range of it returns its byte |
| Witnesses.RefNameLinkBreaks | internal/osix/compact.go:127-186 | a two-snapshot chain linked by a ref name, broken by deleting that ref |
| Witnesses.SpaceDeletesAnother | internal/osix/compact.go:151-160 | the tag `: x` and the ref `x`: deleting the first removes the second |
| Witnesses.DirectoryStopsPruning | internal/osix/compact.go:151-160 | the tag `: ..`, whose listed name is the directory above the refs |
| Witnesses.ForkWithoutLayers | internal/osix/snapshot.go:655-674 | a digest whose snapshot has no layer: the fork succeeds and its tag cannot be restored |
| Witnesses.MountWithoutLayers | internal/osix/snapshot.go:48-65 | a mount of such a snapshot: the snapshot of it succeeds and cannot be restored |
| Witnesses.PulledIdNamesTheOldest | internal/osix/registry.go:354-363 | two snapshots with one id: the pull leaves it on the root |
| Witnesses.NamelessParentIsMissing | internal/osix/registry.go:228-266 | a root without id under a head with one: the push writes a manifest whose parent is missing |
| Witnesses.CheckpointLost | internal/osix/compact.go:99-124 | a checkpoint compacted again under the same tag with pruning: success is reported and no ref is left |
| Witnesses.CheckpointBelowLost | internal/osix/compact.go:99-124 | a checkpoint, a snapshot of the unchanged directory, and the checkpoint again in the same second: success is reported, `latest` and the checkpoint tag are gone |

## Left out

* HTTP, authentication, credential helpers, Kubernetes, the command line, the terminal browser,
  metrics, the watch daemon, the macOS extension: no state machine of their own, or a repetition
  of the overlay idea.
* Encryption, signing, tar, zstd and JSON formats: blobs are values and layers are header lists.
* Secret scanning, redaction and exclusion rules: the tree that is recorded is taken as scanned.
* Ownership, timestamps, umask and permission failures: a mode is data only.
* Names that `filepath.Join` would clean, and trimming of names given to a read: paths are
  canonical where the model says so. Space is blank, tab, newline and return.
* Workspaces.Workspace.Snapshot: an overlay must have no opaque directories and show its upper
  over the mounted tree; `OverlaySnapshot.RecordsViewIff` and `OpaqueRestores.RestoreUpperIff` say
  what happens otherwise. The record of a mount holds a digest, and a config that loads holds
  the listing of a tree.
* Compaction.Compact: a source given as a bare digest must have a complete chain.
* Compaction.Run: a command whose mount or bare digest loads without a complete chain is skipped;
  `Workspaces.Workspace.Snapshot` and `Workspaces.Workspace.Fork` say what it would do.
* LocalStores.LocalStore.WriteRefsIfExpected: errors while writing the temporary files are not
  modelled; they leave the refs alone.
* LazyMount.Mount.Rename: files and links; directories are `LazyMount.Mount.RenameDir`.
* LazyMount.Mount.Do: a directory rename that leaves something behind is not a plain operation
  (`LazyMount.Mount.RenameDir` says what it does). Listing a directory that exists only in the
  upper, which the code refuses, is not modelled.
* LazyMount.Mount.Setattr: a mode or size for a link, which acts on what the link names.
* LazyMount.Mount.Make: names that start with `.wh.` are not created. The code makes them, and
  what it makes is a marker that hides another entry.
* LazyMount.Mount.Mkdir: as `LazyMount.Mount.Make`.
* LazyMount.Mount.Run: requests the kernel would refuse on its own are skipped, and so are
  directory renames that would leave something behind; removing a non-empty directory removes
  what it holds, as the code does.
* OverlaySnapshot.SnapshotUpper: kernel overlay whiteout devices are not modelled, only marker
  files.
* LazyRestore.RestoreFromSnapshotTree: modes of directories are set as they are created, so a
  directory that its own mode makes unwritable is not modelled.
* RangeReads.ReadSnapshotFileRange: a layer itself is taken as readable; only file blobs and
  chunks may be missing or damaged. All layers of a chain are encrypted, or none is.
* CommitTargets.TargetDir.Restore: nobody else changes the target or its backup meanwhile.
* Workers.AlwaysInv: back-off, intervals and the snapshots a worker takes are not modelled; a
  worker may leave its loop at any time.
* RegistryTransfers.Repository.Push: referrers (signatures, provenance, encrypted indexes) are
  not modelled, and a repository stores what it is sent.
* RegistryTransfers.Repository.Pull: lazy pulls and referrers are not modelled, and renames of
  refs are assumed to work.
* Deleting manifests from a registry: it has no reachability check, so nothing holds of what is
  left.
