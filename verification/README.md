# Dafny model of tape-rs

This project models the parts of tape-rs whose correctness is hard to see from
the code, and proves what they promise over all inputs and all runs. Five
components are modelled.

* **The managed catalog** (`src/managed_catalog.rs` and its `requests` and
  `verification` parts): a transactional key/value store holding directory trees,
  file versions, physical copies, the reverse index of each tape volume, the scan
  life cycle and request bookkeeping. Every API call is one atomic step; a retry
  after a lost commit result is the same step again. `Names`, `Keys`, `Records`,
  `Receipts` and `Paging` are the byte layer; `Volumes` and `Scans` are the scan
  state machine, `ScanAnswers` says what each answer means on the records, and
  `ScanStore` carries it out on encoded bytes; `Verification` is freezing and
  page-wise verification; `Namespaces` and `Catalog` add directories, requests and
  publishing; `CatalogInvariant`, `CatalogRuns` and `CatalogHistory` prove what holds
  in every run and `CatalogExample` has one; `CatalogAnswers` tells when each call
  succeeds and what it stores, field by field; `ManagedCatalog` has the calls as
  transactions.
* **The FUSE layer** (`src/tapefs.rs`, native backend): `Inodes` has the inode
  tables, `Mounts`, `MountSteps` and `MountCalls` the state of a mount and what
  every change keeps, `MountOpens` and `MountSync` opening, truncating and fsync as
  functions of that state, `Renames` subtree renaming and `Paths` what it means for
  paths as lists of names, `TapeFs` the calls and `MountExamples` short runs.
* **The library scheduler** (`src/library.rs`, `src/library/admin.rs`): `Library`,
  and `LibraryPromises` for when it must succeed.
* **The local cache budget** (`src/local_read_storage.rs`): `CacheBudget`.
* **The client loops** (`src/client.rs`): `Client`.

Conventions. SHA-256 is taken as injective, so a digest is represented by what it
was taken from. What other components, devices, the network or the clock decide is
a parameter of the step or call ("answers", "replies", "late"). UUIDs are numbers
below 2^128 and byte strings are sequences of numbers below 256. `Fits` is the
invariant of a mount and `Kept` relates a mount to any later state of it. A mount's
`confirmed` holds, for a local file, the backend's report that exactly its bytes are
committed under its name: a change of the bytes clears it, and only a committed
upload, a status or a download that shows those bytes sets it. `Fits` ties the
code's `unconfirmed` mark to it.

Where the code does not keep a property, the model keeps the code and the exact
condition is proved:

* the inode tables stay consistent in a run if and only if no call binds the root's
  identity elsewhere or binds the root late (`Inodes.RunFitsExactly`,
  `Inodes.BreakingCalls`);
* fsync on a newly opened write handle answers Ok only for confirmed bytes if and
  only if the open truncates, the inode has a pending upload, its file is not marked
  unconfirmed, or a rename settled it since its last change
  (`MountCalls.NewHandleIsHonest`); `MountExamples.ReopenedWithoutFlush` is a run in
  which it answers Ok with nothing ever sent, and the two calls that drop a pending
  entry and leave the mark are told apart by
  `MountExamples.SettledByRenameIsHonest` and `MountExamples.DroppedByRecheckIsNot`;
* truncating by inode works on that inode's own file if and only if the inode's last
  known name still stands for it, with a writer open there or not
  (`MountOpens.TruncateOwnFile`, `MountOpens.TruncationReaches`,
  `MountExamples.TruncateHitsSuccessor`, `MountExamples.TruncateHitsNamesake`);
* a successful cache admission has reserved all it asked for if and only if the
  request fits the whole pages of the budget (`CacheBudget.CacheBuild.Admit`,
  `CacheBudget.OddBudgetFallsShort`);
* the comment on `select` says only assigned tapes that are not blacklisted are
  evicted; that holds for the drive it picks (`Library.Library.Select`), while the
  mount limit returns only such tapes if and only if those in the last pool mates'
  drives, in inventory order, are such tapes (`Library.LimitSparesExactly`,
  `LibraryPromises.LimitIgnoresBlacklist`).

## Model

| member | source | states |
|---|---|---|
| Names.AppendComponent | src/managed_catalog.rs:2020-2029 | the loop appends exactly the escaped form of the name |
| Names.DecodeName | src/managed_catalog.rs:2450-2469 | the decoder accepts exactly the escaped strings and returns the name they stand for |
| Names.NameEncodingIsBijection | src/managed_catalog.rs:2450-2469 | encoding and decoding are inverse both ways, on all names and on all accepted strings |
| Names.NameEncodingIsPrefixFree | src/managed_catalog.rs:2020-2029 | no encoded name is a prefix of another, so what follows it can be split off |
| Names.NameEncodingKeepsOrder | src/managed_catalog.rs:2020-2029 | encoded names compare like the names |
| Names.KeysFollowNameOrder | src/managed_catalog.rs:2020-2029 | so do keys that continue after different names, whatever follows them |
| Names.FindPrefixEnd | src/managed_catalog.rs:2429-2437 | the loop returns the end of a prefix range, trailing 0xff bytes included |
| Names.PrefixEndExists | src/managed_catalog.rs:2429-2437 | there is an end exactly for prefixes not made only of 0xff |
| Names.PrefixRangeIsExact | src/managed_catalog.rs:2429-2437 | a key lies between prefix and end if and only if it starts with the prefix |
| Keys.KeysAreInjective | src/managed_catalog.rs:2013-2124 | two records never share a key, across all sixteen kinds of key |
| Keys.RowPrefixSelectsScan | src/managed_catalog.rs:2415-2427 | the reverse-index prefix of a scan covers that scan's rows and nothing else |
| Keys.ChildPrefixSelectsDirectory | src/managed_catalog.rs:2214-2224 | the child prefix covers the entries of one directory and nothing else |
| Paging.ReadPage | src/managed_catalog.rs:1951-1991 | batched range reads return the same page as one read: the first rows after the cursor, and a cursor exactly when more remain |
| Paging.ListingAscends | src/managed_catalog.rs:1951-1991 | pages read from a store that changes in between still ascend, so nothing is returned twice |
| Paging.ListingIsComplete | src/managed_catalog.rs:1951-1991 | a row present throughout a finished listing is returned exactly once, whatever is inserted or deleted meanwhile |
| Paging.ListingOfStableStore | src/managed_catalog.rs:1951-1991 | on an unchanged store calls with any page limits that ask for enough rows together finish, and return the range itself |
| Paging.CursorRoundTrip | src/managed_catalog.rs:1763-1803 | the cursor handed out is accepted, and what remains after it is what remained without the page just returned |
| Paging.DecodeChildren | src/managed_catalog.rs:1763-1803 | rows decode to the children they encode, or the page is refused as corrupt |
| Paging.ListChildren | src/managed_catalog.rs:1763-1803 | a call returns the next children in byte order of names, and refuses bad limits and foreign cursors |
| Paging.ListingOfChildren | src/managed_catalog.rs:1763-1803 | paging through a directory yields its children once each, in byte order of their names |
| Records.PointerCodecIsCanonical | src/managed_catalog.rs:2155-2183 | pointer records decode to what was encoded, and every accepted byte string is the encoding of what it decodes to |
| Records.ManifestCodecIsCanonical | src/managed_catalog.rs:2185-2206 | the same for scan manifests, so comparing bytes compares scan, serial and state |
| Records.HeadCodecIsCanonical | src/managed_catalog.rs:2366-2387 | the same for file heads |
| Records.NodeCodecIsCanonical | src/managed_catalog.rs:2284-2364 | the same for node records with their optional version and attributes |
| Records.LargeAttributesBecomeReferences | src/managed_catalog.rs:2284-2364 | exactly the attributes too large to embed decode to a reference to the stored object |
| Receipts.FingerprintIsInjective | src/managed_catalog.rs:2543-2580 | valid receipts with equal fingerprint input agree in every field but owner epoch and operation id |
| Receipts.CopyEncodingIsInjective | src/managed_catalog/copy_records.rs:173-203 | the record of a copy made for a file request determines the copy |
| Volumes.VerdictMoves | src/managed_catalog.rs:1103-1353 | each call changes nothing, or begins, switches or withdraws a scan under the stated conditions |
| Volumes.MoveKeepsInvariant | src/managed_catalog.rs:1165-1348 | the ready pointer names the only Ready manifest, the pending one the only scan in progress, one serial, and the newest generation never drops |
| Volumes.InvariantMeansUnique | src/managed_catalog.rs:1165-1348 | at most one scan of a volume is ready and at most one is in progress |
| Volumes.MoveKeepsManifest | src/managed_catalog.rs:1255-1348 | no manifest disappears, changes serial or generation, or leaves Retired |
| Volumes.ReadyOnlyFromVerified | src/managed_catalog.rs:1255-1312 | readers move to another scan only when a Verified one of the newest generation is switched in |
| Volumes.ReissueChangesNothing | src/managed_catalog.rs:1165-1348 | a call that changed something changes nothing when issued again |
| Scans.TransitionMovesOne | src/managed_catalog.rs:1103-1353 | one call touches one volume, under the stored owner epoch, or nothing |
| Scans.TransitionKeepsInvariant | src/managed_catalog.rs:1103-1353 | every call keeps the scan invariant of all volumes, and managed readers see a volume as unavailable exactly while it has a pending scan or no ready one |
| Scans.PlaceKeepsInvariant | src/managed_catalog/control.rs:1652-1762 | a volume without a ready or pending scan is bound, by its owner, exactly once, and that keeps the scan invariant; it is unavailable until its first ready scan |
| Scans.AdvanceRaisesEpoch | src/managed_catalog.rs:1037-1061 | an owner epoch only rises, to the larger of the stored and the given one; the call says which, and nothing else changes with it |
| Scans.OtherEpochChangesNothing | src/managed_catalog.rs:1131-1137 | a call under any other epoch leaves the store as it was |
| Scans.ReissueIsHarmless | src/managed_catalog.rs:1103-1353 | a retry after a lost commit result leaves the store as the first call did |
| ScanAnswers.OutcomeFits | src/managed_catalog.rs:1103-1353 | each of the twelve answers of a transition if and only if the volume's records, the owner epoch and the source revision are in the case it stands for: a begin is admitted exactly for an unknown scan of the volume's serial, not older than any pointer, while no scan is in progress |
| ScanAnswers.StoppedBefore | src/managed_catalog.rs:1103-1164 | what is answered before the volume's records are looked at: malformed calls, StaleOwner exactly under any other epoch, a serial the control records do not have |
| ScanAnswers.OutcomeWritten | src/managed_catalog.rs:1165-1348 | record by record what a begin, a switch or a withdrawal writes, with one source revision counted; every other answer writes nothing |
| ScanAnswers.ReadersServed | src/managed_catalog.rs:2133-2153 | readers are served if and only if no scan is pending and the evidence is complete, and then the one Ready scan |
| ScanAnswers.BeginAfterCancel | src/managed_catalog.rs:1203-1221 | right after a cancellation a begin with a fresh scan is answered Reconciling |
| ScanStore.Store.AdvanceOwnerEpoch | src/managed_catalog.rs:1037-1061 | on encoded bytes, the call does what the abstract step does to the state the bytes represent |
| ScanStore.Store.TransitionVolume | src/managed_catalog.rs:1103-1353 | on encoded bytes, with its raw byte comparisons, the call returns the outcome and leaves the state of the abstract step, whose answers and writes `ScanAnswers.OutcomeFits` and `ScanAnswers.OutcomeWritten` state on the records |
| ScanStore.Store.RequireVolumeReady | src/managed_catalog.rs:2133-2153 | readers get the ready scan or are refused as the abstract state says |
| ScanStore.RefusalChangesNothing | src/managed_catalog.rs:1103-1353 | every error, and every outcome but a begin, a switch or a withdrawal, leaves the abstract state unchanged |
| Verification.FoldPage | src/managed_catalog/verification.rs:402-459 | the page loop folds exactly the next rows in key order into the hash chain, and fails if any copy disagrees |
| Verification.FoldIsInjective | src/managed_catalog/verification.rs:155-175 | equal chains over the bytes of entry keys, fingerprints and copy records mean the same entries with the same fingerprints and copies |
| Verification.FoldSplits | src/managed_catalog/verification.rs:155-175 | folding page by page gives the chain of the whole row set |
| Verification.FreezeKeepsProgress | src/managed_catalog/verification.rs:209-293 | freezing starts the chain with nothing folded |
| Verification.VerifyKeepsProgress | src/managed_catalog/verification.rs:324-469 | stored progress is always the chain over the rows the cursor has passed, and a scan is Verified exactly when the chain over all its rows is the expectation |
| Namespaces.LinkKeepsTree | src/managed_catalog.rs:938-984 | writing an entry and its node together keeps a tree rooted at the nil inode |
| Namespaces.DirectoryKeepsTree | src/managed_catalog.rs:876-988 | so does creating a directory, whatever the outcome |
| Namespaces.ClimbIsUnique | src/managed_catalog.rs:938-984 | each node has one path to the root, so there is no cycle |
| Namespaces.RegisterKeeps | src/managed_catalog/requests.rs:398-536 | admission keeps the request window sound and revives no finished operation |
| Namespaces.CancelRequestKeeps | src/managed_catalog/requests.rs:541-637 | cancellation does the same, and an answer that the request is cancelled means that result is on record for good |
| Namespaces.RotateKeeps | src/managed_catalog/maintenance.rs:481-513 | the next request epoch opens exactly if the caller expects the current one and there is capacity, and that does the same |
| Namespaces.FloorKeeps | src/managed_catalog/requests.rs:812-837 | the retained floor rises exactly to a resolved epoch the caller expects, and that does the same |
| Namespaces.PurgeExpiredKeeps | src/managed_catalog/requests.rs:839-856 | exactly results below the floor are forgotten, and that does the same |
| CatalogInvariant.PublishEffectKeeps | src/managed_catalog.rs:1582-1669 | one commit keeps entries, nodes, heads, copies and reverse-index rows in agreement |
| CatalogInvariant.PurgeStepKeeps | src/managed_catalog.rs:1865-1924 | a purge batch keeps the whole invariant |
| CatalogInvariant.StepKeepsInvariant | src/managed_catalog.rs:876-1924 | every one of the fifteen kinds of call keeps it: tree, one copy per version 1..v with the head at v, rows matching copies, a row for every copy of a scan not retired |
| CatalogRuns.InvariantHolds | src/managed_catalog.rs:876-1924 | so it holds at every point of every run from the empty store |
| CatalogRuns.VolumeLives | src/managed_catalog.rs:1103-1353 | between any two points of a run the newest generation has not dropped, frozen rows and expectations are unchanged while examined, and retired scans stay retired and only lose rows |
| CatalogRuns.NoOlderScanIsShown | src/managed_catalog.rs:1167-1178 | after a generation was observed, readers never move to an older one |
| CatalogRuns.ReadersWait | src/managed_catalog.rs:2133-2153 | from a begin on, readers are refused until a Verified scan is switched in, cancellations included |
| CatalogRuns.ReadyMeansPromoted | src/managed_catalog.rs:1255-1312 | a transition answers NowReady if and only if it is that switch |
| CatalogRuns.FrozenUntilSwitch | src/managed_catalog.rs:1541-1574 | the rows switched in are the rows frozen, checked against the expectation given then |
| CatalogRuns.SwitchShowsTheSource | src/managed_catalog/verification.rs:324-469 | at the switch readers get exactly the entries, fingerprints and copies the expectation was computed from |
| CatalogRuns.PurgingEnds | src/managed_catalog.rs:1865-1924 | as many purge calls as a retired scan has rows leave it empty, and it stays empty against late imports |
| CatalogHistory.StepKeepsSpent | src/managed_catalog.rs:1474-1526 | no call revives an operation whose result is recorded or whose epoch expired |
| CatalogHistory.AppliedAtMostOnce | src/managed_catalog.rs:1474-1669 | an operation takes effect at most once in any run; every later attempt changes nothing and is told the original version, a conflict if its content changed, or that it expired |
| CatalogHistory.RetriesToldApart | src/managed_catalog.rs:1474-1669 | a well-formed retry equal in every field but the owner epoch is told the original version, one with any field changed a conflict, unless its epoch or namespace is gone |
| CatalogHistory.CancelledNeverApplies | src/managed_catalog/requests.rs:541-637 | a cancelled operation never takes effect afterwards |
| CatalogHistory.OnlyTheOwnerWrites | src/managed_catalog.rs:1534-1540 | placement, scan, freeze, verification, cancellation and publish calls change the store only under the stored owner epoch |
| CatalogHistory.EpochsOnlyRise | src/managed_catalog.rs:1037-1061 | owner epochs never fall in any run |
| CatalogHistory.WritersNeverGoBack | src/managed_catalog.rs:1131-1137 | the epochs of effective writes under one serial never go down |
| CatalogAnswers.PublishStores | src/managed_catalog.rs:1582-1669 | what a published commit stores, field by field on the store: copy record, head, node, directory entry, reverse-index row, result; the intent is gone and nothing else changed |
| CatalogAnswers.PublishedExactly | src/managed_catalog.rs:1389-1673 | a commit is published if and only if the request is registered in every field, its scan takes commits now, the name and version are as expected and the copy is new |
| CatalogAnswers.RefusalsTold | src/managed_catalog.rs:1389-1673 | every refusal names a fact of the records that stands against the commit |
| CatalogAnswers.CopiesStay | src/managed_catalog.rs:1662 | a copy record once written never changes and never disappears in any run |
| CatalogAnswers.VerifyTells | src/managed_catalog/verification.rs:324-469 | each answer of a verification call against the manifest, progress and rows it leaves |
| CatalogAnswers.MatchedExactly | src/managed_catalog/verification.rs:324-469 | Matched if and only if the scan is Verified afterwards, Mismatch if and only if Rejected |
| CatalogAnswers.VerifyGoesOn | src/managed_catalog/verification.rs:324-469 | Advanced exactly when more rows are left than one page takes, and then exactly that many fewer are left |
| CatalogAnswers.FreezeTells | src/managed_catalog/verification.rs:209-293 | each answer of a freeze against the manifest, expectation and progress before and after: a scan being built is frozen with nothing folded, an examined one answered by its state, another expectation is a conflict, and nothing else is written |
| CatalogAnswers.ScannedAgainAfterCancel | src/managed_catalog.rs:1203-1221 | at any later point of a run without another begin, a begin with a fresh scan after a cancellation is answered Reconciling |
| CatalogAnswers.DirectoryAnswered | src/managed_catalog.rs:876-988 | every answer of creating a directory on the records, and that exactly its two records are written on Created |
| CatalogAnswers.RegisteredExactly | src/managed_catalog/requests.rs:398-536 | a request is registered if and only if it already is, in every field but the owner epoch, or it is new in the accepting epoch with its derived copy and a permit; what is recorded |
| CatalogAnswers.CancelledExactly | src/managed_catalog/requests.rs:541-637 | told cancelled if and only if that is on record or the owner withdraws the registered request; then it is taken off and the result recorded |
| CatalogAnswers.PurgedExactly | src/managed_catalog.rs:1865-1924 | rows go exactly from a scan whose manifest says Retired, only those read, and with none left its progress |
| CatalogAnswers.SpaceCreated | src/managed_catalog.rs:556-708 | a namespace is created once, in the phase asked for, with a root directory only and request epoch 1 open |
| CatalogExample.PublishedOnceThenAnswered | src/managed_catalog.rs:1389-1673 | a run exists in which an import is published at version 1 and its retry is answered with that version |
| CatalogExample.SwitchedInAfterVerification | src/managed_catalog/verification.rs:209-469 | a run exists in which an imported scan is frozen, verified and switched in |
| ManagedCatalog.Database.CreateDirectory | src/managed_catalog.rs:876-988 | the transaction is one directory step and returns its outcome |
| ManagedCatalog.Database.Publish | src/managed_catalog.rs:1389-1673 | the transaction is one publish step, all records or none; Published means that copy, head, node, entry, row and result are stored field by field as `CatalogAnswers.CommitStored` spells out |
| ManagedCatalog.Database.PurgeRetired | src/managed_catalog.rs:1865-1924 | the transaction clears one batch, up to the limit, and is one purge step |
| ManagedCatalog.Database.ClearRows | src/managed_catalog.rs:1906-1916 | the loop clears exactly the first rows in key order, as many as the limit allows |
| ManagedCatalog.Database.VerifyPage | src/managed_catalog/verification.rs:324-469 | the transaction is one verification step over the next page; what it answers matches the manifest it leaves, as `CatalogAnswers.Tells` spells out: Matched with Verified and the whole chain, Mismatch with Rejected, Advanced only while verifying |
| Inodes.Inodes.GetOrAssign | src/tapefs.rs:454-471 | a known path keeps its number, a new one gets the next |
| Inodes.Inodes.GetOrBind | src/tapefs.rs:473-521 | a known identity takes its inode to the path, a new one claims the path's inode or a fresh one |
| Inodes.Inodes.BindUploaded | src/tapefs.rs:760-776 | an upload's identity is accepted exactly when neither side is bound otherwise |
| Inodes.Inodes.Forget | src/tapefs.rs:1728-1730 | unlinking drops the name only |
| Inodes.TablesAreOneToOne | src/tapefs.rs:453-529 | no two paths share an inode and no two identities do |
| Inodes.AssignFinds | src/tapefs.rs:454-471 | after a lookup the path leads to its inode, new exactly for a new path; nothing known before changes |
| Inodes.BindFinds | src/tapefs.rs:473-521 | after a bind the path leads to the inode the file always had, else to the path's own if no file had it, else to a new one; that inode has no other name and no other name, inode or file is affected |
| Inodes.StepFitsExactly | src/tapefs.rs:453-529 | a call keeps the tables consistent if and only if it is not one of the two breaking ones |
| Inodes.BreakingCalls | src/tapefs.rs:480-505 | both breaking calls occur |
| Inodes.RunFitsExactly | src/tapefs.rs:453-529 | the tables are consistent throughout a run if and only if no call of it breaks them |
| Inodes.RootFirstNeverBreaks | src/tapefs.rs:601-604 | with the root identity bound first and only at "/", no run breaks them |
| Inodes.RunPersists | src/tapefs.rs:453-529 | records never vanish and an identity once set never changes |
| Inodes.IdentityKeepsItsInode | src/tapefs.rs:493-507 | a file keeps its inode number wherever it moves |
| Inodes.RecreatedNameIsFresh | src/tapefs.rs:1728-1730 | a name not in the tables gets a number never used before |
| Mounts.CleanupLosesNothing | src/tapefs.rs:392-422 | cleanup removes a local file only if the backend reported exactly its bytes committed, for this file and since they last changed |
| Mounts.KeptIsTransitive | src/tapefs.rs:1443-1687 | what one call keeps about handles, files and uploads is kept over any number of calls |
| MountSteps.ReleaseKeeps | src/tapefs.rs:1656-1687 | closing keeps the invariant; a shared writer entry passes to a surviving alias |
| MountSteps.HandKeeps | src/tapefs.rs:1250-1303 | a new handle keeps it: one writer per name, no two write handles on one file |
| MountCalls.UploadKeeps | src/tapefs.rs:706-721 | an upload attempt and its answer keep it |
| MountCalls.UploadTells | src/tapefs.rs:1556-1577 | what an attempt sends and leaves: the handle's bytes under its own name, the file waiting until an answer reports it committed |
| MountCalls.RecheckTells | src/tapefs.rs:1337-1384 | a committed version ends the waiting, and clears the mark exactly if it is the recorded content |
| MountCalls.TargetCapturedOnce | src/tapefs.rs:1250-1303 | the upload target is captured at the first open for writing and kept; truncating drops content identity and report |
| MountCalls.ChangeKeeps | src/tapefs.rs:1443-1479 | a write through a handle keeps it: content identity and report dropped, mark set |
| MountCalls.NewHandleIsHonest | src/tapefs.rs:1289-1302 | fsync on a new write handle answers Ok only for confirmed bytes if and only if the open truncates, the inode is pending, the mark is off, or a rename settled the file |
| MountOpens.ReaderSees | src/tapefs.rs:1318-1408 | a reader gets the inode's own local file with its bytes as they are, or exactly the downloaded bytes the status named; names, writers and other handles stay |
| MountOpens.ReadOpensExactly | src/tapefs.rs:1318-1408 | a reader is opened if and only if the name stands for the inode and shows a file, and its local file is open for writing here or agrees with what is committed, or the committed content was downloaded |
| MountOpens.WriteOpensExactly | src/tapefs.rs:1250-1303 | past the download a writer is opened if and only if the disk truncates when asked, there is content unless truncating, and a target is captured |
| MountOpens.NameOpensExactly | src/tapefs.rs:1236-1309 | the same for the whole call on a name, its download included |
| MountOpens.FailedTruncationIsDoubted | src/tapefs.rs:1250-1303 | an open that fails to truncate leaves the file marked unconfirmed and unreported, all else as it was |
| MountOpens.WriterGets | src/tapefs.rs:1250-1303 | the writer one gets: alone or shared with the one open there, on the inode's file, emptied or with its content as it was; no other inode's bytes change |
| MountOpens.OpeningForWriteKeeps | src/tapefs.rs:1236-1309 | opening for write, with its temporary reader gone again, keeps the invariant in every outcome |
| MountOpens.TruncationReaches | src/tapefs.rs:1488-1542 | in every branch and for all answers truncating by inode changes no bytes but those of the inode its last name stands for or is given; success by reopening leaves the old content cut or extended to the size |
| MountOpens.TruncateOwnFile | src/tapefs.rs:1488-1542 | if the last name still stands for the inode no other file changes, and otherwise none of its own does, whatever the answers |
| MountSync.ShownByAPoll | src/tapefs.rs:1626-1653 | polling succeeds if and only if some status shows exactly these bytes committed and all before it were still open |
| MountSync.SyncingConfirms | src/tapefs.rs:1591-1654 | Ok leaves a named handle settled, and unless it was before, an answer of this very call reported exactly its bytes committed under its name |
| MountSync.SyncingExactly | src/tapefs.rs:1591-1654 | fsync answers Ok if and only if the handle is a reader, nameless with a good disk, settled already, or an upload or poll of this call reported its bytes committed |
| MountSync.FlushSendsChange | src/tapefs.rs:1545-1582 | after a change a flush sends exactly the changed bytes under the handle's name, and the file waits until they are reported committed |
| MountSync.SyncedIsArchived | src/tapefs.rs:1585-1654 | Ok on a trusted handle means its bytes are confirmed |
| MountSync.WrittenIsTrusted | src/tapefs.rs:1443-1654 | after a write or truncation through a handle there is no report on its file; whatever comes between, once fsync would answer Ok at once a report on exactly its bytes has come in since |
| Renames.SubstituteAt | src/tapefs.rs:1931-1952 | the prefix substitution entry by entry: outside paths untouched, the target's subtree replaced |
| Renames.RenameKeeps | src/tapefs.rs:1835-1954 | names, records, writers and handles still agree after a rename, and displaced handles are nameless |
| Renames.RenameBack | src/tapefs.rs:1835-1954 | renaming to a free name and back restores all four |
| Renames.MovedMayBeReplaced | src/tapefs.rs:1914-1930 | a file written through a moved name is no longer create-only; no other file's target and no bytes change |
| Paths.JoinGoesDown | src/tapefs.rs:561-567 | joining a directory's path and a name spells the directory's names with one more, the root included; spelling is one to one |
| Paths.InTheRoot | src/tapefs.rs:561-567 | inode 1 is "/", and a name in it is the path of one component |
| Paths.WithinIsPrefix | src/tapefs.rs:1849-1851 | the byte test for being below a path holds if and only if the names of the one start with the names of the other |
| Paths.MovedSpells | src/tapefs.rs:1931-1952 | the byte substitution replaces exactly the leading names |
| Paths.RenameMovesTree | src/tapefs.rs:1835-1954 | on trees of names a rename takes each entry of the source to the same place below the target, drops what was there and leaves the rest |
| Paths.HandleFollowsName | src/tapefs.rs:1914-1930 | an open writer below the source is then below the target, one below the target has no name, any other keeps its own |
| Renames.MoveEntries | src/tapefs.rs:1931-1952 | moving entries one by one in any order is the substitution |
| Renames.MoveRecords | src/tapefs.rs:1940-1952 | the loop gives exactly the moved inodes their new paths |
| TapeFs.TapeFs.Send | src/tapefs.rs:1556-1577 | one upload attempt and everything noted about it |
| TapeFs.TapeFs.AwaitCommit | src/tapefs.rs:1626-1653 | polling ends well exactly when the first settled status shows these bytes committed, and changes nothing otherwise |
| TapeFs.TapeFs.SyncHandle | src/tapefs.rs:1591-1654 | does what `Syncing` says; Ok leaves a named handle settled, and unless it was before, a reply of this call confirmed its bytes |
| TapeFs.TapeFs.Fsync | src/tapefs.rs:1585-1589 | Ok on a trusted handle means the backend reported exactly its bytes committed since they last changed |
| TapeFs.TapeFs.Flush | src/tapefs.rs:1545-1582 | Ok leaves a named handle clean and uploaded |
| TapeFs.TapeFs.WriteBytes | src/tapefs.rs:1443-1479 | the new bytes, length, flags and writer entry; when it is refused; a failed write leaves whatever the disk holds, marked and unreported |
| TapeFs.TapeFs.TruncateNamed | src/tapefs.rs:1488-1527 | the same for truncation through the writer table |
| TapeFs.TapeFs.Release | src/tapefs.rs:1656-1687 | closing one handle, with the writer entry handed to an alias if there is one |
| TapeFs.ReleaseExactly | src/tapefs.rs:1656-1687 | only that handle goes; an open handle goes with its last one, and a name stays open for writing, through a handle that is, exactly as long as it has one |
| TapeFs.TapeFs.OpenRead | src/tapefs.rs:1318-1408 | the state and handle `OpeningRead` gives, whose reader is described by `MountOpens.ReaderSees` |
| TapeFs.TapeFs.Recheck | src/tapefs.rs:1337-1384 | reopening a cached file succeeds only if a committed version is its own content, and only then clears the mark |
| TapeFs.TapeFs.OpenWriter | src/tapefs.rs:1250-1303 | the state and handle `OpeningWrite` gives: a writer shared with an open one, or one of its own on the name's inode |
| TapeFs.TapeFs.OpenForWrite | src/tapefs.rs:1236-1309 | the state and handle `OpeningForWrite` gives: after a non-truncating open the temporary reader is gone and the writer stands |
| TapeFs.TapeFs.Open | src/tapefs.rs:1312-1416 | refused unless the name stands for the inode and shows a file; otherwise a reader or writer as above |
| TapeFs.TapeFs.Create | src/tapefs.rs:1129-1156 | a handle exactly if the name is not open for writing nor, exclusively, taken, the truncating open succeeds and the parent is still there; given back otherwise |
| TapeFs.TapeFs.Truncate | src/tapefs.rs:1488-1542 | the state and answer of `TruncatingInode` in all branches, and only the file of the inode its last name stands for changes |
| TapeFs.TapeFs.Unlink | src/tapefs.rs:1695-1731 | when it succeeds, and that exactly the name and its pending entry go, never while it is open for writing |
| TapeFs.UnlinkExactly | src/tapefs.rs:1695-1731 | success if and only if a file was deleted that is not open for writing; the name and the waiting go, every other name, record, file and handle stays |
| TapeFs.TapeFs.Rmdir | src/tapefs.rs:1790-1815 | the same for directories, every other name staying |
| TapeFs.TapeFs.SyncRoot | src/tapefs.rs:2147-2188 | Ok leaves every named write handle settled and nothing pending, and every file that was pending has been reported committed; with good answers for all it is Ok |
| TapeFs.TapeFs.SyncAll | src/tapefs.rs:2147-2155 | Ok if and only if each handle concerned can be synced by its own answers; it leaves every named writer among them settled; no other handle changes and no pending entry is dropped without a report |
| TapeFs.TapeFs.SettlePending | src/tapefs.rs:1872-1891 | Ok if and only if each entry asked for is shown committed with exactly its recorded content; each entry dropped was, and Ok drops all |
| TapeFs.TapeFs.MoveHandles | src/tapefs.rs:1914-1930 | moved handles follow their name, displaced ones lose it |
| TapeFs.TapeFs.Rename | src/tapefs.rs:1818-1954 | success takes the entry of one directory's inode and name to the other's, the root included, with everything below it, names, records, writers and handles at once; with good answers it succeeds; anything else moves no name |
| MountExamples.ReopenedWithoutFlush | src/tapefs.rs:1289-1302 | a run of calls, attribute checks included, after which fsync answers Ok though nothing was sent |
| MountExamples.SettledByRenameIsHonest | src/tapefs.rs:1872-1891 | an entry a rename dropped leaves the mark on, and a handle opened afterwards can be trusted |
| MountExamples.DroppedByRecheckIsNot | src/tapefs.rs:1337-1384 | an entry a refused reopening dropped leaves the mark on, and a handle opened afterwards cannot |
| MountExamples.TruncationSucceeds | src/tapefs.rs:1528-1541 | with good answers a truncation that has to reopen the name succeeds |
| MountExamples.TruncateHitsSuccessor | src/tapefs.rs:1528-1541 | a run without writers in which truncating the inode of an unlinked file changes its successor of the same name |
| MountExamples.TruncateHitsNamesake | src/tapefs.rs:1488-1527 | a reachable state with a writer in which it reaches the file renamed over it |
| Library.MoveConserves | src/library.rs:597-620 | a MOVE from a full to an empty element keeps every cartridge in one place |
| Library.Library.MoveMedium | src/library.rs:605-612 | each MOVE is justified by the inventory and both reservations of that moment, uses the checks up and conserves cartridges |
| Library.Library.ReturnDrive | src/library.rs:640-682 | does what `Return` says: at most one MOVE, to the recorded home slot, under both reservations checked twice |
| Library.ReturnEmpties | src/library.rs:640-682 | success leaves the drive empty, and in no case does another drive change |
| Library.Library.EnforceLimit | src/library/admin.rs:305-363 | does what `Limited` says; success leaves room for one more tape of the pool, and drives this instance has not taken are untouched |
| Library.LimitTakesVictims | src/library/admin.rs:329-361 | only the last pool mates in inventory order are returned, from the end, one MOVE each; success returns exactly those in excess |
| Library.LimitMakesRoom | src/library/admin.rs:305-363 | success leaves fewer pool tapes mounted than the limit, unless the target is mounted |
| Library.LimitSparesExactly | src/library/admin.rs:329-361 | the tapes returned for the limit are all allowed if and only if those in the victims' drives are |
| Library.Library.FindMates | src/library/admin.rs:329-347 | the loop collects the drives with tapes of the pool in inventory order |
| LibraryPromises.LimitIgnoresBlacklist | src/library/admin.rs:329-361 | a run in which a blacklisted pool mate is taken out of its drive for the limit |
| Library.Library.Choose | src/library.rs:541-557 | the first drive holding the tape, else the first empty one, else the first whose tape is allowed; none exactly when there is none |
| Library.Library.Mount | src/library.rs:590-620 | Ok if and only if the tape is in the drive already, or in its home slot with the drive empty and good answers; at most one MOVE, from the home slot into the drive, and Ok leaves the tape there |
| Library.Library.Place | src/library.rs:585-620 | Ok if and only if the drive can be cleared and the mount works; at most one eviction, from the chosen drive, of an allowed tape and with every enabled drive taken by another tape, then at most one mount; other drives stay |
| Library.Library.Select | src/library.rs:488-638 | a drive if and only if limit, choice, claim, eviction and mount all work on the inventory, and exactly that drive: the tape is then in it under both reservations, put there by the last MOVE unless it was there; the MOVEs are those for the limit and then that placement, and every other drive keeps its content; nothing moves when stopped or not allowed |
| LibraryPromises.TapeIsMounted | src/library.rs:488-638 | with good answers select must succeed whenever the tape is in an enabled drive or at home, the limit's victims can go home, and some enabled drive is empty or the first evictable one has a free home slot |
| LibraryPromises.LimitSucceeds | src/library/admin.rs:305-363 | the limit must be met whenever its victims are in drives of this instance with free home slots of their own |
| LibraryPromises.MovesAreAllowed | src/library.rs:541-620 | in terms of the resource database: a tape mounted or evicted is assigned, not blacklisted, and offline only if just being brought online |
| Library.Library.Close | src/library.rs:808-825 | every drive this instance took is emptied and released, nothing else is moved, what is in any other drive stays; it succeeds whenever the tapes have free home slots of their own and the answers are good |
| Library.Library.Failed | src/library.rs:762-768 | lost ownership stops scheduling for good |
| Library.Library.Assign | src/library.rs:235-263 | accepted exactly for an unassigned data tape whose home slot is known: the storage slot it is in, or the one the changer says it came from |
| Library.Library.Unassign | src/library.rs:265-284 | refused exactly while unassigned or in a drive |
| CacheBudget.CacheBuild.Scan | src/local_read_storage.rs:219-237 | leftovers go, everything else stays, and the total is the sum of what counts |
| CacheBudget.CountedInBlocks | src/local_read_storage.rs:219-237 | the total is 512 bytes for every block of the plain files that are finished caches or unknown |
| CacheBudget.CacheBuild.EvictOne | src/local_read_storage.rs:266-297 | removes the first unpinned finished cache of the listing and keeps the total exact; says no only when the listing is used up and nothing in it can be evicted |
| CacheBudget.CacheBuild.TrimToBudget | src/local_read_storage.rs:257-264 | ends within budget, or with nothing left to evict, or on a file that cannot be looked at; nothing more is evicted than it takes |
| CacheBudget.CacheBuild.ReclaimUnpinned | src/local_read_storage.rs:249-255 | ends with nothing listed left to evict and says whether anything was removed, or fails on a file that cannot be looked at |
| CacheBudget.CacheBuild.Admit | src/local_read_storage.rs:299-357 | success leaves the total within budget and the reservation page aligned within it, at most ceil(budget/CHUNK) growths, and enough reserved exactly when the request fits the usable budget; a growth takes no more chunks than the request needs, with room for them beyond the headroom; nothing is evicted needlessly; a request within the reservation always succeeds; refused for lack of room only when nothing is left to evict |
| CacheBudget.GrowthClimbs | src/local_read_storage.rs:324-328 | a growth never shrinks the reservation and takes it up at least one chunk |
| CacheBudget.AsksForSome | src/local_read_storage.rs:305-314 | a request is four times the row and eight pages on top of the pages in use, or refused when it overflows |
| CacheBudget.OddBudgetFallsShort | src/local_read_storage.rs:315-328 | with a budget of partial pages a success can reserve less than required |
| Client.Client.Order | src/client.rs:587-593 | the leader first, then the other endpoints in their order |
| Client.Client.Round | src/client.rs:587-642 | contacts, leader and sink of one round: the leader first, a newly hinted leader next, no address twice, and none left out when the round ends open; the leader is forgotten unless it answered |
| Client.Client.RequestLeader | src/client.rs:576-649 | every attempt but the last was one the loop may pass over, the outcome is the last attempt's, the leader is who answered, and the sink is what the attempts wrote; NoLeader only after the first late round, with every endpoint tried in every round |
| Client.NoSilentReplay | src/client.rs:627-639 | a request with a body or a verb other than GET and HEAD is repeated only after attempts that were unsent or answered 503 |
| Client.OneResponseInSink | src/client.rs:532-551 | a sink receives bytes of one response at most, the last: its 200 body or the part that came before it was lost |
| Client.Client.Query | src/client.rs:961-984 | queries go on exactly while a version is in flight and the deadline has not passed; why they ended |
| Client.Client.PutBody | src/client.rs:890-1019 | at least one try, each what the network made of it; the last one decides, every result in exactly its own case (201, 202, 412, other status, staged or committed content shown by a query, unknown); content is sent again only after a definite no or once a query shows the path free or other content committed |

## Left out

- FoundationDB branches of the FUSE layer (node journals, FDB renames, upload journals): only the identity binding of their inodes is modelled.
- Active namespaces, namespace discard and cleanup, batch publication, compaction and import of root attributes: the model has namespace phases that change freely until discarded.
- Publishing, directories, placement, purging and verification run on typed records; only the scan state machine is also carried out on encoded bytes.
- Copies made by whole-volume imports or node links, with their media mapping: every copy stems from a file request.
- Admission permits, placement, index evidence, attribute objects and the extent cache of a verification are yes/no answers.
- The text form of intents and HTTP messages, SCSI commands, SQLite and FoundationDB internals.
- Metadata of cached files (times, extended attributes, the remembered source version) and backends that report no digests.
- Lock interleavings inside a mount: each public call is one sequential step. Shared handles and local files are numbered entries of the mount's tables instead of references.
- 64-bit wrap-around of inode and handle numbers.
- Client.Client.RequestLeader: does not show that a request ends, because a server may name a new leader in every answer and the deadline is looked at only between rounds; a call whose replies run out is still trying.
- CacheBudget.CacheBuild.Admit: does not model a reservation made on disk when the page limit then cannot be set; the total and the reservation on record stay as they were.
- Tape tasks, mounting and writing LTFS volumes, capacity records and the retry wrapper around local space errors: thin around the modelled parts.
