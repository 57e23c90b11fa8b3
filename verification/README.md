# proton-utils: verified models of block I/O, caching, refresh, copying and paths

This project models the parts of proton-utils whose correctness does not show in any single
function: how a Drive file is cut into blocks, cached, committed and read back; how several
processes refresh one account; how a pool of workers copies files; how paths, symlinks, tree
walks and event cursors behave; how the configuration is addressed by selectors; and how Lumo
keys are wrapped and bound to their context. Each part is written as the source is: code that
updates state in loops and methods is a method or a class proved against a function on values,
protocols are step machines over all interleavings, and the laws are lemmas about those
functions and machines.

| file | what it models |
|---|---|
| `Blocks`, `DriveServer`, `BlockWriter`, `FileDescriptor`, `ProtonEndpoint`, `LocalFiles` | files as blocks: buffered and positioned writes, background uploads, the ordered commit, reads through the caches, block sources and destinations |
| `LruSpec`, `BufferCache`, `CacheProtocol`, `BlockStore` | the block cache as a value, as an object with slots, list elements and channels, as a protocol between goroutines, and over a disk cache and the server, used among other goroutines |
| `Credentials`, `RefreshProtocol`, `RefreshAccount` | token refresh under a per-account lock: one decision, all interleavings, one process |
| `CopyJobs`, `Pipeline`, `Uploads`, `Semaphores` | claiming blocks, the copy workers, whole copies to Drive with their commits, the worker pool |
| `Events` | polling an event log from a cursor |
| `Paths`, `Resolve`, `AbsolutePaths` | splitting and normalizing paths, resolving them with and without symlinks, absolute paths |
| `TreeWalk`, `WalkOrders`, `WalkPaths`, `WalkLevels` | breadth-first and depth-first walks, their orders, and the entries they emit |
| `Selectors`, `SelectorGrammar`, `Decimal`, `SortedStrings`, `ConfigStore`, `ConfigTexts` | the selector language and the configuration it addresses |
| `KeyWrap`, `AssociatedData` | RFC 3394 key wrapping and the associated-data strings |
| `Outcomes`, `Text`, `FiniteSets` | optional values, results, string search, sizes of sets |

Where the code meets a law only in part, the project keeps the code as it is and proves exactly
when the law holds:

- A positioned write acts on the flat file exactly when it is empty, falls into the open block, or
  repeats the file from an earlier block on, with nothing pending in the open block
  (`BlockWriter.WriteAtExactly`).
- A close that reports success has committed the file that was written, except that an existing
  file overwritten with nothing keeps its old revision (`FileDescriptors.WriteFile`).
- What is written after a flush that committed can be committed exactly when the file had no full
  block, and then it replaces the file (`FileDescriptors.WriteAfterFlush`).
- A commit of blocks of a file succeeds exactly when there is no gap between them, and it has the
  whole file exactly when none is missing (`ProtonEndpoints.GaplessKeys`,
  `ProtonEndpoints.WholeFirstPart`).
- Reads are flat exactly when the recorded size covers the file (`FileDescriptors.ReadsAreFlat`).
- Recording a fetch error leaves the cache in order exactly when the slot was not clean
  (`LruSpec.ErrorOnCleanSlot`); the cache outgrows its capacity exactly when an absent key is put
  while every slot is being fetched (`LruSpec.Capacity`). Invalidating a link while a block of it is
  fetched can lead to such an error (`LruSpec.ErrorAfterInvalidate`).
- A memory cache filled with ciphertext is in order for readers that expect plaintext exactly when
  the two are equal for every block it holds (`BlockStores.ModesDoNotMix`).
- Invalidating a link restores coherence exactly when no stale block lies outside the erased
  range (`BlockStores.InvalidateRestoresCoherence`).
- A copy that reports success copied everything exactly when all blocks were claimed
  (`Pipeline.SuccessIsComplete`). A cancelled run reports success too, and with any jobs it may
  have copied nothing (`Pipeline.CancelledRunSucceeds`); among runs that are not cancelled, success
  means complete exactly when the pool has a worker (`Pipeline.SuccessNeedsAWorker`).
- A copy to Drive that reports success has committed, for every source, the blocks that were claimed:
  the whole source when it is not empty and the run had a worker and was not cancelled, a first part
  of it after a cancellation, and nothing for an empty source (`Uploads.CopyToDrive`).
- A refresh leaves the store with the live credential exactly when it does not fail to save one that
  the server granted (`RefreshAccount.OutcomeIsLive`); after such a failure the next caller is told
  that the account is dead (`RefreshAccount.FailedSaveDeauths`).
- A consumer of events misses nothing exactly when its last snapshot is not older than the
  position the watcher anchored to (`Events.MissesNothing`). A refresh can move the watcher past the
  position it announces, and the events between are lost (`Events.RefreshSkips`).
- A path and its normal form lead to the same result on every tree, errors included, exactly when
  no `..` takes a component back for good (`AbsolutePaths.NormalizeAgreesEverywhere`).
- Resolving with and without following a final symlink agree on a path to a child exactly when the
  child is no symlink (`Resolve.ModesAgree`).
- Removing all values under a prefix removes exactly what matches when every match is at a place a
  selector can denote (`ConfigStore.RunUnsetAll`).
- The two tree walks agree for every depth limit but zero, and at zero exactly when the root emits
  nothing (`WalkOrders.DepthZero`); for the others the breadth-first walk is the depth-first walk
  sorted by depth (`WalkLevels.SameOrder`).
- Printing and parsing selectors undo each other exactly for well-formed selectors and for texts
  whose index keys survive (`Selectors.PrintParseRoundTrip`, `Selectors.ParsePrintRoundTrip`).

The selector grammar in the documentation of `api/config/selector.go` makes an index key an
identifier; the code accepts any text without `=` and `]`, the empty one included, and the model
follows the code. `commitRevisionFromTokens` checks that the indexes `0..n-1` of the `n` uploaded
blocks are there, so when the last blocks of a copy fail, closing commits a shorter file
(`ProtonEndpoints.ProtonWriter.Close`). The comment of `Flush` in `api/drive/fd.go` calls it a commit
without closing; writing on afterwards does not extend the file
(`FileDescriptors.WriteAfterFlush`).

## Model

| member | source | states |
|---|---|---|
| `Blocks.BlockCount` | api/drive/block.go:38-43 | the count is the least number of full-size blocks that covers the size; nothing for sizes up to zero |
| `Blocks.ConcatBlocks` | api/drive/local.go:66-76 | the blocks of a file, in index order, concatenate to the file |
| `Blocks.LengthsAddUp` | api/drive/proton_endpoint.go:70-83 | the block sizes of a file of a given size add up to that size |
| `Blocks.BlockShapes` | api/drive/local.go:66-76 | every block but the last is full and the last is not empty |
| `Blocks.BlockBytes` | api/drive/local.go:45-60 | byte k of block i is byte 4194304 i + k of the file |
| `Blocks.OverwriteBytes` | api/drive/local.go:115-126 | after a positioned write the written bytes stand at their offset, the old ones around them and zeros in a gap |
| `Blocks.ReadBytes` | api/drive/local.go:45-60 | a positioned read returns the bytes at its offset, as many as asked for and as the file has |
| `BlockWriter.WriteRefines` | api/drive/fd.go:691-727 | a write of any length to a buffer that stands for file d leaves one that stands for d followed by the data |
| `BlockWriter.WriteAtRefines` | api/drive/fd.go:732-803 | a positioned write that starts in the open block overwrites or extends the flat file, zero-filling a gap, over any number of blocks |
| `BlockWriter.WriteAtEnd` | api/drive/fd.go:732-803 | at the end of the file a positioned write leaves exactly the state a sequential write leaves |
| `BlockWriter.WriteAtExactly` | api/drive/fd.go:753-759 | for every write: flat-file behaviour if and only if it is empty, starts in the open block, or, with nothing in the open block, starts in an earlier block and rewrites the file from there on with the bytes it has |
| `BlockWriter.JumpStrands` | api/drive/fd.go:753-759 | leaving a started block for another makes the buffer stand for no file at all |
| `BlockWriter.JumpForwardSkips` | api/drive/fd.go:753-759 | jumping over an unwritten block leaves it missing whatever is written afterwards in that call |
| `BlockWriter.JumpBackwardKeeps` | api/drive/fd.go:753-759 | after a jump backward, any file the buffer may still stand for begins with the old file unchanged |
| `BlockWriter.WriteAtGrows` | api/drive/fd.go:732-803 | blocks handed to uploads are never taken back, and a positioned write adds only the open block and blocks from its offset on |
| `BlockWriter.OpenBlockUploads` | api/drive/fd.go:761-802 | from any state, a write that starts in the open block hands over exactly the full blocks of the open block overwritten with the data, and keeps the last one open |
| `BlockWriter.ElsewhereUploads` | api/drive/fd.go:753-802 | from any state, a write to another block first hands over the open block with the bytes it has, if any, and then exactly the full blocks of the data placed at its offset over zeros |
| `BlockWriter.JumpUploads` | api/drive/fd.go:753-802 | for a buffer that stands for d: the jump hands over the rest of d from the open block on, then the full blocks of the data, and leaves exactly the stated buffer |
| `FileDescriptors.CommitRevisionFromTokens` | api/drive/upload_helpers.go:126-190 | commits if and only if the indexes 0..n-1 are all present, naming a missing one otherwise, and signing, encrypting the attributes and the request succeed; the revision lists tokens, sizes, their sum and the manifest in index order |
| `FileDescriptors.ContiguousKeys` | api/drive/upload_helpers.go:141-145 | passing the completeness check means the key set is exactly 0..n-1 |
| `FileDescriptors.CommitHolds` | api/drive/upload_helpers.go:136-153 | tokens that stand for the blocks of d make a revision whose blocks decipher to d in order, sizes adding up to its length and manifest listing its hashes |
| `FileDescriptors.ManifestIsHashes` | api/drive/upload_helpers.go:136-153 | the manifest is the concatenation of the block hashes in index order |
| `FileDescriptors.ReadsAreFlat` | api/drive/fd.go:239-289 | reads equal flat reads at all offsets and lengths if and only if the recorded size is at least the file's length |
| `FileDescriptors.ReadsSpannedBlocks` | api/drive/fd.go:239-289 | with any recorded size, nothing is read at or beyond it, and otherwise a read is a flat read of the blocks that size spans |
| `FileDescriptors.FileDescriptor.Write` | api/drive/fd.go:691-727 | the three refusals without effect; otherwise all bytes are taken and the buffer changes as the specification of writing says |
| `FileDescriptors.FileDescriptor.WriteAt` | api/drive/fd.go:732-803 | likewise for a positioned write |
| `FileDescriptors.FileDescriptor.Splice` | api/drive/fd.go:761-785 | overwriting and extending the open block piece by piece is a flat overwrite with a zero-filled gap |
| `FileDescriptors.FileDescriptor.CompleteUpload` | api/drive/fd.go:826-850 | an upload that ends, in any order, records its own block's token or the first error, and every other block stays accounted for |
| `FileDescriptors.FileDescriptor.RunUploads` | api/drive/fd.go:826-850 | any number of uploads may finish, in any order; waiting leaves none in flight |
| `FileDescriptors.FileDescriptor.Flush` | api/drive/fd.go:523-583 | a written file is committed exactly, at the first flush or a retry after failures, or stays pending with the active revision unchanged because of a fault; a committed descriptor with nothing pending reports success and changes nothing |
| `FileDescriptors.FileDescriptor.CommitCollected` | api/drive/fd.go:541-583 | nothing to commit changes nothing; otherwise success makes the revision of the collected tokens active and leaves nothing pending, and failure keeps tokens and revision, with a fault if the tokens are complete; a new file commits even when empty |
| `FileDescriptors.FileDescriptor.Close` | api/drive/fd.go:500-513 | closing flushes what is pending; closing again, closing a reader, or closing after a flush that committed reports success and changes nothing |
| `FileDescriptors.WriteAfterFlush` | api/drive/fd.go:523-583 | after a flush that committed, what is written and uploaded next is complete for a commit if and only if the block index is still 0, and then the revision holds the later bytes alone |
| `FileDescriptors.FileDescriptor.ReadAt` | api/drive/fd.go:239-289 | whatever the caches hold and whoever else uses them, a read that does not fail returns exactly the specified slice, with end of file if and only if it is short; a failed one a prefix of it and the error |
| `FileDescriptors.FileDescriptor.Read` | api/drive/fd.go:178-234 | the same from the running offset, which moves by the bytes returned; data never comes with an error |
| `FileDescriptors.FileDescriptor.ReadBlock` | api/drive/fd.go:295-400 | in either strategy, while other goroutines use the caches: a block of the committed revision comes back as that block of the file, the caches stay in order, and failures are those of the server; alone, a block with a copy at hand comes without the server |
| `FileDescriptors.TokensHoldFile` | api/drive/fd.go:826-850 | once nothing is in flight and nothing failed, the tokens stand for exactly the blocks of the file written |
| `FileDescriptors.NextPiece` | api/drive/fd.go:252-285 | each round of reading continues the result, and an empty round or the recorded end completes it |
| `FileDescriptors.WriteFile` | api/drive/fd.go:691-727 | for any chunks, any upload order and any number of flushes with whatever outcome, a close that reports success has committed exactly their concatenation, unless nothing was written to an existing file, whose old revision then stays active; without server faults it succeeds, and a failed one leaves the active revision |
| `FileDescriptors.ReadFile` | api/drive/fd.go:239-289 | reading a committed revision back in either strategy with any recorded size that covers it gives, unless the server fails, the flat slice of the file at every offset, with end of file exactly when it is short |
| `ProtonEndpoints.ProtonWriter.WriteBlock` | api/drive/proton_endpoint.go:190-200 | a block in any order replaces that index only; a failed upload changes nothing |
| `ProtonEndpoints.ProtonWriter.Close` | api/drive/proton_endpoint.go:215-227 | for any subset of a file's blocks: with a gap the commit is refused naming a missing block; otherwise success has committed exactly the file made of the first blocks, whole or truncated; a second close does nothing and reports success |
| `ProtonEndpoints.GaplessKeys` | api/drive/upload_helpers.go:141-145 | the uploaded blocks pass the completeness check if and only if none is missing before the last of them |
| `ProtonEndpoints.WholeFirstPart` | api/drive/proton_endpoint.go:215-227 | what a gapless close commits is the whole file if and only if every block was uploaded |
| `ProtonEndpoints.ProtonReader.ReadBlock` | api/drive/proton_endpoint.go:46-64 | out-of-range indexes fail without a request; otherwise, among other goroutines, a prefix of the deciphered block, and errors only for faults or undecipherable data |
| `ProtonEndpoints.ReadCommitted` | api/drive/proton_endpoint.go:46-83 | reading block i of a committed revision with its recorded sizes gives block i of the file |
| `LocalFiles.LocalReader.ReadBlock` | api/drive/local.go:45-60 | opens on first use and reads the block's bytes by position, short only at the end of the file, or fails |
| `LocalFiles.ReadsBlock` | api/drive/local.go:45-76 | while the file keeps its listed size the read is exactly its block |
| `LocalFiles.LocalReader.CloneReader` | api/drive/local.go:30-41 | a clone has a descriptor of its own on the same file, or fails with it |
| `LocalFiles.LocalWriter.WriteBlock` | api/drive/local.go:115-126 | writes by position at index times block size; a failed write leaves the bytes before it, from the front of the block |
| `LocalFiles.OtherBlockStays` | api/drive/local.go:115-126 | writing any part of one block leaves every other block in place |
| `LocalFiles.AllInPlace` | api/drive/local.go:115-126 | with all blocks in place the file begins with the source, and equals it when not longer |
| `LruSpec.ApplyKeepsConsistent` | api/drive/buffercache.go:57-247 | every operation keeps the recency list equal to the clean slots, each once |
| `LruSpec.Capacity` | api/drive/buffercache.go:134-136 | the slots exceed the capacity only by putting an absent key into a cache full of fetching slots, and then by one |
| `LruSpec.FetchingStays` | api/drive/buffercache.go:231-247 | a slot being fetched is never evicted: it leaves only by Put, PutError or Invalidate of its own key |
| `LruSpec.Slots` | api/drive/buffercache.go:57-229 | what each operation does to the slot of its own key, and that it changes no other slot but by dropping it |
| `LruSpec.Recency` | api/drive/buffercache.go:66-147 | a get or put makes its key the most recent; the other operations leave the order alone, but for an eviction at its end |
| `LruSpec.EvictAgrees` | api/drive/buffercache.go:238-247 | eviction removes the clean key whose last touch is oldest |
| `LruSpec.ApplyAgrees` | api/drive/buffercache.go:57-229 | every operation answers like a cache that keeps time stamps, and keeps list order equal to time order |
| `LruSpec.RunsAgree` | api/drive/buffercache.go:57-247 | the same over every legal sequence of operations |
| `LruSpec.ErrorOnCleanSlot` | api/drive/buffercache.go:163-167 | recording an error keeps the cache consistent if and only if the slot is not clean |
| `LruSpec.ErrorAfterInvalidate` | api/drive/buffercache.go:152-229 | a fetch that fails after its link was invalidated and its block was fetched by another caller leaves the cache inconsistent |
| `BufferCaches.BufferCache.ValidIsConsistent` | api/drive/buffercache.go:24-41 | slots, list elements and channels in order means the list holds exactly the clean slots |
| `BufferCaches.BufferCache.GetStart` | api/drive/buffercache.go:57-78 | the part before the wait is the specified Get; it waits only on the slot's own open channel |
| `BufferCaches.BufferCache.GetResume` | api/drive/buffercache.go:79-95 | after the wait the slot is looked up again; absent or being fetched anew is a miss |
| `BufferCaches.BufferCache.Put` | api/drive/buffercache.go:106-147 | refines the specified Put and leaves the slot's channel closed, so that waiters wake |
| `BufferCaches.BufferCache.PutError` | api/drive/buffercache.go:152-174 | drops the slot and closes its channel; the cache stays valid if and only if the slot was not clean |
| `BufferCaches.BufferCache.Reserve` | api/drive/buffercache.go:180-206 | refines the specified Reserve; a reserved slot gets a new open channel |
| `BufferCaches.BufferCache.Invalidate` | api/drive/buffercache.go:210-229 | removes exactly the link's slots, in any order, and wakes their waiters |
| `BufferCaches.BufferCache.EvictLocked` | api/drive/buffercache.go:238-247 | removes the element at the back and its slot, or reports an empty list |
| `BufferCaches.BufferCache.MoveToFront` | api/drive/buffercache.go:67-69 | moves one element by identity, and no other |
| `CacheProtocol.StepKeepsInv` | api/drive/blockstore.go:76-102 | every step of every reader and prefetcher keeps slots, channels, ownership and contents in order |
| `CacheProtocol.Safety` | api/drive/fd.go:370-465 | over every schedule: never over capacity, one owner per key, whoever is parked on an open channel waits for an owner that can move, and returned data is the store's |
| `CacheProtocol.Progress` | api/drive/blockstore.go:76-102 | every schedule has at most six steps per goroutine, and none is stuck before all have finished |
| `CacheProtocol.EveryReaderIsServed` | api/drive/blockstore.go:76-102 | a schedule that cannot go on and had no failed fetch has given every reader its block |
| `CacheProtocol.ReserveKeepsTable` | api/drive/buffercache.go:180-206 | reserving gives one new fetching slot with a fresh open channel and keeps all other fetches and their channels |
| `CacheProtocol.StoreKeepsTable` | api/drive/buffercache.go:110-131 | an owner's Put closes the channel of its slot and leaves the store's data in it |
| `CacheProtocol.DropKeepsTable` | api/drive/buffercache.go:152-174 | an owner's PutError closes the channel of its slot and removes it |
| `BlockStores.BlockCacheKeyInjective` | api/drive/blockstore.go:68-70 | different blocks have different disk-cache names, whatever the link identifiers |
| `BlockStores.KeyTexts` | api/drive/blockstore.go:68-70 | two disk-cache names in full |
| `BlockStores.BlockStore.FetchBlock` | api/drive/blockstore.go:106-138 | the disk copy if there is one, without the server; else what the server has, which the disk cache may then keep; a failed request changes nothing |
| `BlockStores.BlockStore.GetBlock` | api/drive/blockstore.go:76-102 | while others fetch any blocks, the same one included: an answer is the server's block, both caches stay in order, and failures are the server's; alone, other slots being fetched stay so, a block with a copy at hand comes without the server, and a block obtained is in memory afterwards if and only if it was before or the cache was not full of fetches |
| `BlockStores.BlockStore.GetDecoded` | api/drive/fd.go:370-400 | the same with the block deciphered before it goes into the memory cache, or with any other decoding |
| `BlockStores.BlockStore.Others` | api/drive/fd.go:412-465 | whatever other goroutines do to the two caches, they stay in order, and the slot a caller owns stays the caller's |
| `BlockStores.ModesDoNotMix` | api/drive/blockstore.go:72-75 | a memory cache in order for one strategy is in order for another if and only if the blocks it holds are the same in both |
| `BlockStores.RefusedWhenBusy` | api/drive/buffercache.go:180-195 | a key without a slot is refused one if and only if the cache is at its capacity and every slot is being fetched |
| `BlockStores.BlockStore.Invalidate` | api/drive/blockstore.go:167-176 | forgets all blocks of the link in memory and those numbered 1..blockCount on disk |
| `BlockStores.InvalidateRestoresCoherence` | api/drive/blockstore.go:167-176 | after a link changed on the server, coherence is restored if and only if its stale disk blocks are numbered 1..blockCount |
| `Credentials.RotatingCredential` | api/account/refresh_account.go:150-160 | the loop finds the refresh token or the first REFRESH cookie |
| `Credentials.FirstRefreshCookie` | api/account/refresh_account.go:150-160 | in the cookie style the value of the first cookie whose name begins with REFRESH-, empty without one; in the bearer style the refresh token |
| `Credentials.UpdatedRotates` | api/account/refresh_account.go:91-97 | after a refresh in either style the rotating credential is the one the server granted, for the same UID |
| `Credentials.UpdatedFields` | api/account/refresh_account.go:90-125 | field by field: bearer style takes both granted tokens and keeps the cookies, cookie style keeps both tokens; the time is set, UID and style stay |
| `Credentials.RotatedAt` | api/account/refresh_account.go:122-124 | every cookie keeps its name and place, REFRESH- cookies get the credential, AUTH- cookies the access value, all others keep theirs |
| `Credentials.DeadStatuses` | api/account/refresh_account.go:168-180 | a refused refresh means a dead account if and only if its status is 400 or 422 |
| `Credentials.SanitizeUID` | api/account/refresh_lock.go:73-91 | the loop computes the lock name |
| `Credentials.LockNameIsSafe` | api/account/refresh_lock.go:70-91 | lock names are never empty, hold only safe characters, keep safe names, and are stable |
| `Credentials.SafeCharacters` | api/account/refresh_lock.go:73-91 | the kept characters by code point: letters, digits, dot, underscore and hyphen |
| `Credentials.SanitizedAt` | api/account/refresh_lock.go:73-91 | every kept character stays in its place and every other one becomes an underscore |
| `RefreshProtocol.StepKeepsInv` | api/account/refresh_account.go:34-131 | every step of every process keeps stores, locks, live credentials and the rotation history in order, also when lock names collide |
| `RefreshProtocol.OneHolder` | api/account/refresh_lock.go:31-57 | no two processes are inside the lock of one account |
| `RefreshProtocol.NoDeadCredentialIsSubmitted` | api/account/refresh_account.go:54-72 | in every interleaving a submitted credential is live, and no call is told the account is dead |
| `RefreshProtocol.ReturnedCredentialIsLive` | api/account/refresh_account.go:63-72 | credentials about to be returned are the live ones while the lock is still held, and differ from those the call started with |
| `RefreshProtocol.OneRotationPerCredential` | api/account/refresh_account.go:60-66 | calls that started with one credential cause at most one rotation of the account |
| `RefreshProtocol.StoresAreLiveAtRest` | api/account/refresh_account.go:91-97 | unless a process is between the server's answer and its save, the store holds the live credential |
| `RefreshProtocol.HolderCanMove` | api/account/refresh_lock.go:51-68 | whoever waits for a lock waits for a process that can move and leaves the lock within a bounded number of its steps |
| `RefreshAccount.RefreshLock.Release` | api/account/refresh_lock.go:61-68 | releases its file once; releasing again does nothing, whoever holds the file by then |
| `RefreshAccount.AcquireRefreshLock` | api/account/refresh_lock.go:31-57 | locks the account's file, or without a runtime directory nothing; when the file cannot be made or locked it reports so and nothing is held |
| `RefreshAccount.RefreshAccountLocked` | api/account/refresh_account.go:34-73 | load, adopt, refuse or refresh and save as decided, also uncoordinated when the lock fails; the lock is free again on every path |
| `RefreshAccount.RefreshLocked` | api/account/refresh_account.go:78-131 | a refused exchange changes nothing, a granted one the server and, if the save succeeds, the store; 400 and 422 mean a dead account |
| `RefreshAccount.OutcomeIsLive` | api/account/refresh_account.go:34-73 | the store ends with the live credential if and only if no granted credential failed to be saved; success returns one newer than the caller's, other failures change nothing, and none means a dead account |
| `RefreshAccount.FailedSaveDeauths` | api/account/refresh_account.go:91-97 | after a rotation whose save failed, the next call that loads the store submits a dead credential and reports the account as dead |
| `RefreshAccount.AloneIsTheCall` | api/account/refresh_account.go:34-73 | a process of the protocol that runs alone does exactly what the call does |
| `CopyJobs.BlockMap.Claim` | api/drive/copyjob.go:77-83 | hands out the indexes in order, then -1; the counter moves either way |
| `CopyJobs.Claimer.Claim` | api/drive/pipeline.go:93-108 | over all jobs the claims come in list order, each once, then nothing |
| `CopyJobs.AllClaimsOnce` | api/drive/pipeline.go:93-108 | every block of every job occurs exactly once in that order, at its place |
| `CopyJobs.AllClaimsMembers` | api/drive/pipeline.go:31-37 | the claims are exactly the blocks of the jobs |
| `Pipeline.StepKeepsInv` | api/drive/pipeline.go:137-181 | every claim, read, write and counter step keeps claims, counters, reports and file contents in order, failures and partial writes included |
| `Pipeline.Accounting` | api/drive/pipeline.go:88-183 | in every finished run each claimed block is done or failed, never both, the two counters add up to the claims, and without cancellation everything was claimed |
| `Pipeline.ReportedIffComplete` | api/drive/pipeline.go:174-180 | a job is reported complete once if it has blocks and all were copied, else never |
| `Pipeline.SuccessCopies` | api/drive/pipeline.go:110-203 | a run without errors and with nothing left unclaimed leaves each destination equal to its source, followed by what a longer old file had behind it |
| `Pipeline.SuccessIsComplete` | api/drive/pipeline.go:110-203 | in every finished run without errors all blocks were copied if and only if all were claimed, every destination then begins with its source, and otherwise the run was cancelled or had no worker |
| `Pipeline.CancelledRunSucceeds` | api/drive/pipeline.go:138-140 | for any jobs and any number of workers some run is cancelled, copies nothing and still reports success |
| `Pipeline.SuccessIsNoProof` | api/drive/pipeline.go:186-203 | that every run which reports success copied everything is true if and only if there is nothing to copy |
| `Pipeline.SuccessNeedsAWorker` | api/drive/pipeline.go:31-31 | an uncancelled success copied all blocks if and only if the limit is positive or there are none |
| `Uploads.CopyToDrive` | api/drive/pipeline.go:26-203 | with the workers writing to Drive destinations that are closed at the end: success means that every destination holds the claimed first blocks of its source, and uncancelled with a worker the whole of every source that is not empty; failure comes from a worker or from a request of a commit |
| `Uploads.WrittenAtEnd` | api/drive/pipeline.go:93-181 | in a finished run without errors the uploaded blocks of every job are a first part of it without a gap, as long as the job's share of the claims |
| `Uploads.StepSends` | api/drive/pipeline.go:170-181 | after every step the uploads of each job are exactly the blocks whose writes succeeded, with the source's bytes |
| `Pipeline.RunsEnd` | api/drive/pipeline.go:137-183 | a worker that has not left can always move, and runs take at most five steps per block and one per worker |
| `Pipeline.WhyExited` | api/drive/pipeline.go:138-143 | workers leave only when cancelled or when nothing is left to claim |
| `Semaphores.BoundedConcurrency` | api/semaphore.go:66-95 | in every interleaving at most limit bodies run at once, and active, held, completed and submitted are consistent |
| `Semaphores.WaitMeansFinished` | api/semaphore.go:99-105 | waiting ends if and only if every submitted task has finished; then all slots are free and all tasks counted |
| `Semaphores.NoDeadlock` | api/semaphore.go:66-95 | while a task is unfinished some task can move, if and only if there are slots or a task is yet to be submitted |
| `Events.ContiguousSegment` | api/drive/event.go:128-169 | the events delivered since the last refresh are one contiguous segment of the log, without gap or repeat |
| `Events.ResumeContinues` | api/drive/event.go:68-78 | deliveries resumed from the last delivered cursor continue exactly there |
| `Events.MissesNothing` | api/drive/event.go:160-168 | a consumer that resyncs on refreshes misses nothing before the cursor if and only if its last snapshot reaches the position the watcher anchored to |
| `Events.RefreshSkips` | api/drive/event.go:159-168 | after a refresh at one position and a restart at a later one, a consumer with the older snapshot lacks exactly the events between |
| `Events.KnownPositions` | api/drive/event.go:140-168 | it knows exactly the snapshot and the segment since |
| `Events.WatchTarget.PollWatchTarget` | api/drive/event.go:128-169 | one poll delivers one batch unless cancelled, keeps the chain of batches, and for each answer of the server leaves exactly the cursor and the batch the source does |
| `Events.PollAndConsume` | api/drive/event.go:128-169 | a consumer that missed nothing before a poll still misses nothing after it if and only if the poll brought no refresh or the new snapshot reaches the new cursor |
| `Events.WatchAgain` | api/drive/event.go:68-78 | a new watch from the cursor of the last delivered batch continues the old deliveries as one segment of the log, without gap or repeat, as long as no refresh comes |
| `Events.WatchTarget.DeliverDelta` | api/drive/event.go:159-160 | the cursor and the batch advance to the event ID together |
| `Events.WatchTarget.Reanchor` | api/drive/event.go:145-154 | a stale cursor becomes the latest one and the consumer is told to resync |
| `Events.WatchTarget.DeliverRefresh` | api/drive/event.go:159-168 | a refresh is delivered as it is, and the watch goes on from the latest position |
| `Events.WatchDriveEvents` | api/drive/event.go:91-121 | polling any targets in turn, also several on one server, keeps the chain of each and delivers one batch a round to each unless cancelled |
| `Paths.SplitJoin` | api/drive/path.go:16-27 | splitting undoes joining of segments without slashes |
| `Paths.JoinSplit` | api/drive/resolve_symlink.go:112-118 | joining undoes splitting |
| `Paths.ComponentsNonEmpty` | api/drive/resolve_symlink.go:112-118 | trimming slashes loses no component |
| `Paths.ComponentEnds` | api/drive/resolve_symlink.go:112-118 | no component at either end is empty |
| `Paths.NormalizePath` | api/drive/path.go:9-33 | the loop with its stack computes the specified normal form or the error |
| `Paths.NormalForm` | api/drive/path.go:9-33 | accepted if and only if a segment is left; the answer consists of clean segments and the kept trailing slash |
| `Paths.NormalizeIdempotent` | api/drive/path.go:9-33 | normalizing twice is normalizing once |
| `Paths.NormalComponents` | api/drive/path.go:28-32 | the components of a normal form are exactly its segments |
| `Resolve.ScanIsFirst` | api/drive/readdir.go:236-256 | the uncached lookup is decided by the first entry that failed or is an untrashed child of that name |
| `Resolve.LookupFinds` | api/drive/readdir.go:232-256 | a found child has the name and the folder as its parent |
| `Resolve.ResolvePartsLoop` | api/drive/link.go:793-816 | the loop computes plain resolution |
| `Resolve.WalkParts` | api/drive/resolve_symlink.go:41-75 | the loop computes the walk, ending on every tree and link graph by remaining depth and components |
| `Resolve.Follow` | api/drive/resolve_symlink.go:81-108 | a symlink's target is resolved against its folder or the share root, one level deeper |
| `Resolve.WalkComposes` | api/drive/resolve_symlink.go:41-75 | walking p then non-empty q is walking p with following and then q, errors included |
| `Resolve.LastUnfollowed` | api/drive/resolve_symlink.go:63-73 | without following, a last plain component names the child itself, symlink or not, of the folder its front leads to with following, errors included |
| `Resolve.LastFollowed` | api/drive/resolve_symlink.go:63-73 | with following, a symlink in the last place gives way to what its target leads to |
| `Resolve.ModesAgree` | api/drive/resolve_symlink.go:33-35 | the two modes agree on a path to a child if and only if the child is no symlink; no target leads back to its symlink |
| `Resolve.FollowRefusals` | api/drive/resolve_symlink.go:81-103 | a symlink at depth forty is a loop; before that an unreadable target and an absolute one without a share root fail as such |
| `Resolve.DescendErrors` | api/drive/resolve_symlink.go:50-61 | a component fails in no folder, in a broken listing, and where no entry shows it, each with its own error |
| `Resolve.WalkMonotone` | api/drive/resolve_symlink.go:81-84 | what resolves at some depth resolves to the same link at any smaller depth |
| `Resolve.FollowedIsNoSymlink` | api/drive/resolve_symlink.go:63-73 | a followed success is never a symlink |
| `Resolve.WalkIsResolveParts` | api/drive/resolve_symlink.go:41-75 | on trees without symlinks the walk is plain resolution |
| `Resolve.ChainWithinBudget` | api/drive/resolve_symlink.go:11-14 | a chain of symlinks resolves to its end if and only if its length fits the remaining depth, else it is a loop |
| `Resolve.SelfLoop` | api/drive/resolve_symlink.go:81-84 | a symlink to itself is reported as a loop from every depth |
| `AbsolutePaths.ResolveAppend` | api/drive/link.go:793-816 | plain resolution composes, errors included |
| `AbsolutePaths.ReducePreserves` | api/drive/path.go:16-27 | working out dots preserves what a resolving path leads to |
| `AbsolutePaths.NormalizePreservesMeaning` | api/drive/path.go:9-33 | a path that resolves from the share root and its normal form lead to the same link, and a rejected one leads to the root |
| `AbsolutePaths.NormalizePreservesFollowed` | api/drive/resolve_symlink.go:33-35 | the same for the following resolver on trees without symlinks |
| `AbsolutePaths.NormalizeAgreesEverywhere` | api/drive/path.go:9-33 | a path and its normal form resolve alike on every tree from every root, errors included, if and only if every stack on the way is a prefix of the final one |
| `AbsolutePaths.NormalizeForgetsMissingParts` | api/drive/path.go:20-24 | the converse fails: a component taken back need not exist |
| `AbsolutePaths.UpAndDownTakesBack` | api/drive/path.go:20-24 | that input takes a component back for good |
| `AbsolutePaths.Reverse` | api/drive/link.go:742-745 | swapping from both ends reverses in place |
| `AbsolutePaths.AbsPathLoop` | api/drive/link.go:725-749 | the loop up the parents with the reversal computes the absolute path |
| `AbsolutePaths.AbsPathResolves` | api/drive/link.go:725-789 | the path printed for a listed link, without the root's name, resolves from the root to the link |
| `AbsolutePaths.ResolvedAbsPath` | api/drive/link.go:725-789 | a link found from the root by plain components prints those components |
| `TreeWalk.WalkBreadthFirst` | api/drive/client_walk.go:47-109 | the queue loops send exactly the specified walk, or a prefix of it when cancelled |
| `TreeWalk.WalkDepthFirst` | api/drive/client_walk.go:111-156 | likewise for the recursion |
| `TreeWalk.ReadDirectory` | api/drive/client_walk.go:64-101 | one directory's entries are sent in order and its folders queued in order |
| `TreeWalk.NextAllSize` | api/drive/client_walk.go:103-105 | each level takes its directories off the nodes left, so the loop ends |
| `WalkOrders.SameEntries` | api/drive/client_walk.go:47-156 | for every depth limit but zero both walks emit the same multiset |
| `WalkOrders.DepthZero` | api/drive/client_walk.go:54-64 | breadth first with limit zero does what it does with limit one, so the walks agree there if and only if the root emits nothing |
| `WalkOrders.BreadthFirstOrder` | api/drive/client_walk.go:56-106 | depths never decrease |
| `WalkOrders.WithinLimit` | api/drive/client_walk.go:97-99 | no entry lies below a positive limit |
| `WalkOrders.Segment` | api/drive/client_walk.go:111-156 | the walk of every node is one contiguous piece of the whole |
| `WalkOrders.DirectoryAfterDescendants` | api/drive/client_walk.go:149-153 | a directory comes after everything emitted below it |
| `WalkOrders.PlacesDiffer` | api/drive/client_walk.go:111-156 | no node is emitted twice |
| `WalkOrders.EveryEntryIsANode` | api/drive/client_walk.go:111-156 | every visited entry is that of a node within the limit |
| `WalkOrders.OwnEntry` | api/drive/client_walk.go:149-153 | every node within the limit is emitted with its path, depth and name, at its place |
| `WalkPaths.VisitedEntries` | api/drive/client_walk.go:111-156 | a visited entry is emitted depth first if and only if it is that of a node within the limit, its path being the root path, the names on the way separated by slashes, and a slash behind a folder |
| `WalkPaths.VisitedBreadthFirst` | api/drive/client_walk.go:47-109 | the same for the breadth-first walk, with limit one in place of zero |
| `WalkPaths.FailedEntries` | api/drive/client_walk.go:116-135 | a failure is emitted depth first if and only if it is an entry that failed, or has no readable name, in a directory that is read; it is reported one level below, in the second case with the link |
| `WalkPaths.FailedBreadthFirst` | api/drive/client_walk.go:64-82 | the same for the breadth-first walk |
| `WalkLevels.SameOrder` | api/drive/client_walk.go:47-156 | at every depth both walks emit the same entries in the same order, so the breadth-first walk is the depth-first walk stably sorted by depth |
| `Selectors.PrintSelector` | api/config/selector.go:23-39 | the builder loop prints the specified text |
| `Selectors.ParseSelector` | api/config/selector.go:49-119 | the position-advancing loop computes the specified parse, with the same errors and positions |
| `Selectors.NextSegment` | api/config/selector.go:57-103 | one segment with its optional index, or the error the specification gives |
| `Selectors.PrintParseRoundTrip` | api/config/selector.go:23-119 | printing undoes parsing of an accepted text if and only if no index key is empty |
| `Selectors.ParsePrintRoundTrip` | api/config/selector.go:23-119 | parsing undoes printing if and only if the selector is well formed |
| `Selectors.EmptyKeyIsDropped` | api/config/selector.go:91-100 | a text with an empty index key is accepted and prints without the index |
| `SelectorGrammar.Accepts` | api/config/selector.go:49-119 | a text parses to given segments if and only if it spells grammatical segments out; so it has at most one reading |
| `SelectorGrammar.Faults` | api/config/selector.go:50-115 | every refusal names a fault that is there, at its position, behind segments that are in order; the empty text has its own |
| `SelectorGrammar.IdentifierCharacters` | api/config/selector.go:121-129 | the characters of identifiers by code point |
| `SelectorGrammar.PlainText` | api/config/selector.go:49-119 | "a1.b" parses to its two segments |
| `SelectorGrammar.IndexedText` | api/config/selector.go:49-119 | "s[n=x.y].m-2" parses to a segment with an index and one without |
| `Decimal.AtoiItoa` | api/config/mapping.go:608-622 | 64-bit numbers survive printing and parsing |
| `Decimal.DigitsAt` | api/config/mapping.go:679-679 | the digits printed are the remainders by ten, the last one first, without a leading zero |
| `Decimal.Limits` | api/config/mapping.go:608-622 | digits, with or without a minus, are read as their number exactly within 64 bits |
| `Decimal.SomeNumbers` | api/config/mapping.go:608-622 | some numbers and ranges printed and read in full, and texts that are no numbers |
| `Decimal.RangeRoundTrip` | api/config/mapping.go:631-683 | watermark ranges survive printing and parsing |
| `Decimal.RangeAround` | api/config/mapping.go:631-653 | two numbers around the first colon, blanks apart, are a range if and only if they are not negative and in order |
| `Decimal.RangeIsAround` | api/config/mapping.go:631-653 | every range read stands that way in its text |
| `Decimal.Trimmed` | api/config/mapping.go:636-640 | trimming takes exactly the blanks at either end |
| `Decimal.Blanks` | api/config/mapping.go:636-640 | the blanks by code point |
| `SortedStrings.SortedKeys` | api/config/mapping.go:731-738 | the keys in order, each once |
| `SortedStrings.BeforeIs` | api/config/mapping.go:731-738 | the order is decided at the first position where two texts differ or one ends |
| `SortedStrings.SortedOrder` | api/config/mapping.go:731-738 | every key stands before the later ones and differs from them |
| `ConfigStore.NameRoundTrip` | api/config/mapping.go:127-215 | the selector listed for a value parses back to that value's address |
| `ConfigStore.AcceptIdempotent` | api/config/mapping.go:606-683 | the text a value is listed under is accepted again unchanged |
| `ConfigStore.PutKeepsCanonical` | api/config/mapping.go:87-104 | setting keeps every stored text acceptable at its place |
| `ConfigStore.ListingOver` | api/config/mapping.go:127-215 | the listing does not depend on keys that hold nothing |
| `ConfigStore.ReplayListing` | api/config/mapping.go:87-215 | replaying a listing through the parser on an empty store rebuilds the store |
| `ConfigStore.FilterListing` | api/config/match.go:16-27 | removing what matches a prefix leaves exactly the old listing without the matching entries, in order |
| `ConfigStore.ReachableReplays` | api/config/mapping.go:87-215 | every configuration reached by parsing, setting and unsetting from the default replays to itself |
| `ConfigStore.Config.Set` | api/config/mapping.go:87-104 | an error and no change, or exactly one value set in its kept text; every other value, from the file or the command line, and all defaults stay |
| `ConfigStore.Config.UnsetField` | api/config/mapping.go:107-124 | removes exactly the addressed value; every other value and all defaults stay |
| `ConfigStore.Config.Get` | api/config/mapping.go:67-84 | the value set at the place, by file or command line, else for a service the one set for the core, else the default; a value from the file in its listed text |
| `ConfigStore.Config.List` | api/config/mapping.go:127-215 | lists exactly the values that came from the file, in the fixed order |
| `ConfigStore.Execute` | api/config/mapping.go:87-124 | commands on the object act on the keyed store |
| `ConfigStore.CopyByListing` | api/config/mapping.go:87-215 | listing and replaying on a fresh default gives the same contents and the same listing |
| `ConfigStore.RunUnsetAll` | internal/cli/config/unset.go:70-95 | after a successful save the file holds exactly the entries that do not match the prefix if and only if every match is at a place a selector can denote; then its listing is filtered and the report lists the removed selectors in order; a failing save leaves the file as it was |
| `ConfigStore.UnsetMatching` | internal/cli/config/unset.go:70-84 | the same for the loaded configuration before it is saved |
| `ConfigStore.BracketStays` | internal/cli/config/unset.go:70-95 | a share identifier with a bracket, as a file may hold it, survives the removal of everything |
| `ConfigTexts.ListingInOrder` | api/config/mapping.go:127-215 | the listing shows every value from the file once, the fixed entries first, then services by name and shares by identifier, ascending |
| `ConfigTexts.NamesDiffer` | api/config/mapping.go:127-215 | no two places share a selector |
| `ConfigTexts.Names` | api/config/mapping.go:127-215 | every selector in full |
| `ConfigTexts.Refusals` | api/config/mapping.go:67-124 | which selectors are too short, name no namespace, lack an index or name no field |
| `ConfigTexts.Values` | api/config/mapping.go:606-683 | which texts each place accepts, and the text they are kept as |
| `ConfigTexts.Prefixes` | api/config/match.go:16-27 | a prefix matches if and only if it is empty, the whole selector, or followed by a dot in it |
| `KeyWrap.UnwrapInvertsWrap` | api/lumo/crud_crypto.go:165-254 | unwrapping a ciphertext gives a plaintext if and only if wrapping that plaintext gives the ciphertext |
| `KeyWrap.RoundTrip` | api/lumo/crud_crypto.go:165-254 | for every block-cipher bijection and every key of 8n bytes, n at least 2, unwrapping the wrapped key gives it back (RFC 3394, sections 2.2.1 and 2.2.2) |
| `KeyWrap.IndexedEqualsShifting` | api/lumo/crud_crypto.go:185-205 | the indexed loops compute the register-shifting description of section 2.2.1 of RFC 3394 over 6n steps numbered 1..6n in order |
| `KeyWrap.XorCounter` | api/lumo/crud_crypto.go:151-160 | the in-place loop xors the big-endian counter into the register |
| `KeyWrap.AesKeyWrap` | api/lumo/crud_crypto.go:165-206 | the in-place loops compute the specified wrapping, with the same refusals |
| `KeyWrap.AesKeyUnwrap` | api/lumo/crud_crypto.go:211-254 | likewise for unwrapping and the integrity check |
| `KeyWrap.BigEndianByte` | api/lumo/crud_crypto.go:151-160 | the bytes xored in are those of the 64-bit big-endian counter |
| `KeyWrap.XorByteBits` | api/lumo/crud_crypto.go:151-160 | a bit of the exclusive or of two bytes is set if and only if that bit of them differs |
| `KeyWrap.ByteIsDigit` | api/lumo/crud_crypto.go:151-160 | byte k of the counter is its digit k in base 256 |
| `KeyWrap.SealBytes` | api/lumo/crud_crypto.go:188-200 | one step byte by byte: the high half of the enciphered block, xored with the digits of the counter, becomes A, the low half register i, and the rest stays |
| `KeyWrap.ShiftBytes` | api/lumo/crud_crypto.go:188-200 | one step of the shifting form byte by byte (section 2.2.1 of RFC 3394) |
| `KeyWrap.ShiftsCounted` | api/lumo/crud_crypto.go:196-197 | step t of the shifting form works with the counter t, from one on |
| `KeyWrap.IvBytes` | api/lumo/crud_crypto.go:176-180 | the initial value is eight bytes 0xA6 (section 2.2.3.1 of RFC 3394) |
| `KeyWrap.Refusals` | api/lumo/crud_crypto.go:165-222 | wrapping and unwrapping refuse exactly the wrong lengths and then a bad key, each with its error |
| `AssociatedData.JsonEscape` | api/lumo/crud_crypto.go:115-123 | the fast path equals the slow path |
| `AssociatedData.JsonEscapeSlow` | api/lumo/crud_crypto.go:125-144 | the buffer loop escapes character by character |
| `AssociatedData.EscapeCodes` | api/lumo/crud_crypto.go:125-144 | the five escaped characters and their escapes by code point |
| `AssociatedData.ReadEscaped` | api/lumo/crud_crypto.go:115-144 | reading up to the first unescaped quote recovers the string, so escaping is invertible and leaves no quote bare |
| `AssociatedData.ADInjective` | api/lumo/crud_crypto.go:86-111 | no two different subjects, of the same or of different kinds, have the same associated data; an empty parent differs from every present one |
| `AssociatedData.ADIsObject` | api/lumo/crud_crypto.go:78-111 | every string is the object of exactly the subject's members, with keys in ascending order and no parent key for a root message, and it reads back to those members |

## Left out

- CacheProtocol.Safety: a concurrent Invalidate and a change of cache mode during a run are not modelled; the store behind a key is fixed. `LruSpec.ErrorAfterInvalidate` and `BlockStores.ModesDoNotMix` show what they can do.
- BufferCaches.BufferCache.GetStart: cached data that is a nil slice, which the source reports as a miss, is not modelled; cached data is always present.
- RefreshProtocol.StepKeepsInv: the best-effort path without a lock, a failing save after a rotation, and an answer lost after the server rotated are outside the protocol; each of them can leave a dead credential in the store. RefreshAccount has the first two for one call.
- RefreshAccount.RefreshAccountLocked: the cookie jar is a list of cookies whose AUTH and REFRESH values are replaced; other effects of a response on the jar are not modelled.
- Pipeline.SuccessCopies: two jobs that write the same file, and sources that change during the copy, are not modelled.
- Pipeline.StepKeepsInv: byte counts and rates of the progress display, clones as objects, and the closing of local files are not modelled; a failed clone is a failed read or write.
- FileDescriptors.FileDescriptor.Flush: Sync, Truncate and Seek are not modelled.
- FileDescriptors.FileDescriptor.WriteAt: negative offsets are outside the model; the source does not check for them and panics on any that is not a multiple of the block size, so it demands the same of its callers.
- FileDescriptors.FileDescriptor.ReadAt: negative offsets are outside the model; the source panics on them.
- FileDescriptors.FileDescriptor.ReadBlock: prefetching goroutines are among the others that may use the store at any time; that a reader waiting for one of them is woken is `CacheProtocol.Progress`.
- Events.WatchTarget.PollWatchTarget: the tick interval is not modelled, and cancellation only as a choice at each delivery.
- Resolve.ResolvePartsLoop: names are compared in the uncached scan of a listing; cached child lists and the fetching of listings are not modelled.
- TreeWalk.WalkBreadthFirst: listings are finite trees that do not change during a walk.
- BlockStores.BlockStore.GetBlock: RequestUpload and UploadBlock, which only forward to the server and fill the disk cache, are not modelled.
- KeyWrap.AesKeyWrap: AES itself is any bijection on 16 bytes; HKDF, base64 and the encryption of strings are not modelled.
- ConfigStore.Config.List: the YAML text of the file, of which only the contents are kept, Show, setting parameters from the command line and MatchPattern are not modelled.
- OpenPGP signatures, extended attributes and verification tokens of uploads are not modelled; encryption is any function with an inverse.
- FUSE, keyrings, HTTP, login, forking sessions and the command-line tools are thin wrappers or user interface.
