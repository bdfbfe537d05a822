# Suma: chunk ledger, chunking, streams, trees and clocks

A Dafny model of the parts of this system where state, interleaving or arithmetic carry the promise, with proofs
of those promises. `dafny verify dfyconfig.toml` checks all of it.

The model takes the form of the code. What works by changing fields is a class with methods over loops, each
proved against a specification function or a direct postcondition; what runs concurrently is a state machine
whose steps interleave freely, and its invariants are proved for every run; codecs are functions with their
inverse. Hash functions (BLAKE3), the gear table and UTF-8 validity are parameters: nothing depends on their
values, and no hash is assumed injective except where a lemma says so in its `requires`.

| files | subject |
|---|---|
| `Manifests`, `FilesLedger`, `FilesRoutes`, `FilesRuns` | one account's chunk rows, files and bucket: each transaction, each route served whole, and every interleaving |
| `Masks`, `Chunker`, `ContentDefined`, `Assembly` | the boundary masks; FastCDC over a buffer and over streams; why boundaries follow the content; reassembly |
| `ContentAddresses`, `ChunkCache`, `Hydration` | addresses, the LRU cache against a recency list, hydration from any source, the end-to-end round trip |
| `Scrollback`, `PtyPump` | the terminal ring, and delivery over a lossy broadcast with resync |
| `CtlChannel`, `FetchTasks` | positional matching on the control channel; cancellable background downloads |
| `WatchDigest` | the tree serialisation behind change detection |
| `VfsPaths`, `VfsMutations`, `Base64` | path normal form, compare-and-change under one lock, the payload codec |
| `Hlc`, `OfflineQueue`, `MuxFrames` | the hybrid clock, queue compaction, frames and channel names |
| `Orders`, `Numbers`, `Bytes`, `Wrappers` | lexicographic order and sorting; machine words and hex digits; byte strings; optional values and results |

## Where code and documentation differ

The model follows the code; each of these is a lemma.

- A replace or delete that overlaps a complete-upload can leave a row marked stored whose object is gone: the
  HEAD list may describe rows that have been re-created since (`FilesRuns.StaleHeadsMarkLostChunk`). Requests
  served whole cannot (`FilesRoutes`), and `FilesRuns.RunsBackedExactlyWhenSafe` says which runs do not.
- Complete-upload takes no account lock, so a replace can commit between its check of the chunks and the statement
  that marks the file complete (`FilesRuns.UnlockedCompleteCanLie`; exactly when that matters: `FilesRuns.RunsStaySound`,
  `FilesLedger.ReplaceBeforeFinish`).
- The write limit of 8388608 bytes is checked on the length of the base64 text first, padding included, so the
  largest payload accepted is 8388606 bytes (`VfsMutations.PayloadAccepted`, `PayloadIsBounded`).
- Normalising a path is not idempotent at the length limit (`VfsPaths.LongestNameIsRefusedTheSecondTime`).
- `fwd/+80` and `fwd/0080` parse, although ports are documented as strict digits (`MuxFrames.PortsMayLookOdd`,
  and exactly which names do not come back: `ParsedNamesBack`).
- A stream that dies within the four length bytes of a frame reads as a clean end, although a stream that dies
  inside a frame is documented as an error (`MuxFrames.CutFrame`).
- A refused change can have had an effect, when its system calls failed half-way: part of an append, part of a
  recursive delete, some directories of a mkdir, a temporary file (`VfsMutations.RefusalsChangeNothing` says exactly
  when, `RefusalsSpare` what at most, and `AppendCanStopHalfWay` and the three after it that each happens). A hydration
  whose final rename fails leaves its temporary file (`Hydration.Disk.HydrateToPath`).

## Model

| member | source | states |
|---|---|---|
| `Manifests.DistinctIsFirstMentions` | services/control/src/files.ts:98-107 | deduplication keeps every address, each once, and keeps its first mention |
| `Manifests.DistinctChunks` | services/control/src/files.ts:98-107 | the pass with a `seen` set lists exactly the first mentions |
| `Manifests.MissingChunks` | packages/chunking/src/index.ts:260-272 | the single pass over listed and held addresses computes the upload set |
| `Manifests.UploadSetsAgree` | services/control/src/files.ts:114-116 | the filtered list of the control plane and the single pass of the chunking package are the same list for every manifest and every holding |
| `Manifests.UploadSetIsExact` | agent/src/chunker.rs:207-220 | an upload set names exactly the addresses the file names and the destination lacks, none twice |
| `FilesLedger.CreateKeepsSound` | services/control/src/app.ts:2478-2558 | recording or replacing a file keeps counts exact, rows linked, complete files stored and the account within quota |
| `FilesLedger.DeleteKeepsSound` | services/control/src/app.ts:3261-3272 | deleting a file keeps all of that |
| `FilesLedger.CompleteKeepsSound` | services/control/src/app.ts:2662-2704 | the transaction of complete-upload taken in one go keeps all of that, for any list of confirmed and missing addresses however stale |
| `FilesLedger.FinishKeepsExactly` | services/control/src/app.ts:2681-2700 | the last statement of that transaction on its own, for any tables: a file may be marked complete exactly when all its chunks are stored at that moment |
| `FilesLedger.ReplaceBeforeFinish` | services/control/src/app.ts:2681-2700 | if a replace commits before that statement, the mark is right exactly when the replace had nothing left to upload |
| `FilesLedger.ClampNeverBites` | services/control/src/app.ts:2344-2363 | a chunk a file names has a count of at least one, also after the new references of a replace: the clamp at zero never changes a result |
| `FilesLedger.CreateSparesShared` | services/control/src/app.ts:2530-2558 | the orphans of a create are exactly the chunks no file names any more; a chunk the old and new version share keeps its row and its mark; the reported missing chunks are exactly the unstored ones |
| `FilesLedger.DeleteSparesShared` | services/control/src/app.ts:2344-2365 | a delete orphans exactly the chunks no other file names and leaves the marks of all others |
| `FilesLedger.CreateConservesBytes` | services/control/src/app.ts:2475-2494 | used bytes grow by exactly the new distinct chunks and shrink by exactly the orphans |
| `FilesLedger.DeleteConservesBytes` | services/control/src/app.ts:3261-3272 | a delete returns exactly the bytes of the chunks no other file shares |
| `FilesLedger.IncomingIsNewRows` | services/control/src/files.ts:114-121 | the bytes weighed against the quota are the declared sizes of the addresses that have no row |
| `FilesLedger.CompleteMarks` | services/control/src/app.ts:2662-2704 | marks are only added and an earlier mark keeps its time; a file becomes complete only with every chunk it then names stored |
| `FilesLedger.UsedIsDistinctReferenced` | services/control/src/app.ts:2272-2284 | when an address fixes its length, used bytes are the sum over distinct referenced chunks |
| `FilesLedger.CreateKeepsSizes` | services/control/src/app.ts:2389-2407 | rows keep the one length an address stands for, since a conflict never rewrites a size |
| `FilesLedger.CreateWritesItsFile` | services/control/src/app.ts:2496-2529 | the file a create writes carries address, size and chunks of that one manifest and is not complete; it is created exactly when no file was at the path; every other file is as it was |
| `FilesLedger.DeleteTakesItsFile` | services/control/src/app.ts:3261-3272 | a delete takes this file with its chunk list and leaves every other as it was |
| `FilesLedger.CompleteAnswers` | services/control/src/app.ts:2677-2704 | what complete-upload answers: the missing HEADs if there are any; else exactly the named chunks neither stored nor confirmed; gone and complete exactly when |
| `FilesRoutes.FilesService.QuotaState` | services/control/src/app.ts:2278-2284 | the loop over the rows sums the sizes of referenced chunks |
| `FilesRoutes.FilesService.AttachChunks` | services/control/src/app.ts:2389-2420 | one upsert per distinct chunk, then the manifest rows, make the state the transaction function names |
| `FilesRoutes.FilesService.ReleaseHashes` | services/control/src/app.ts:2344-2365 | decrement and conditional removal, and the orphans that come back |
| `FilesRoutes.FilesService.DeleteOrphanObjects` | services/control/src/app.ts:2374-2386 | removes the objects of orphans that no row has claimed again, and no other |
| `FilesRoutes.FilesService.CreateTransaction` | services/control/src/app.ts:2478-2558 | statement by statement, the create transaction |
| `FilesRoutes.FilesService.DeleteTransaction` | services/control/src/app.ts:3261-3272 | statement by statement, the delete transaction |
| `FilesRoutes.FilesService.PostManifest` | services/control/src/app.ts:2462-2580 | served whole: tables as the transaction says, every stored chunk backed by an object of its size, other readable files still readable |
| `FilesRoutes.FilesService.DeleteFile` | services/control/src/app.ts:3252-3276 | served whole: the same for a delete |
| `FilesRoutes.FilesService.HeadChunks` | services/control/src/app.ts:2604-2645 | which chunks the HEADs confirm, which they find missing, and that a wrong-sized object goes |
| `FilesRoutes.FilesService.CompleteTransaction` | services/control/src/app.ts:2662-2704 | statement by statement, the transaction of complete-upload |
| `FilesRoutes.FilesService.CompleteUpload` | services/control/src/app.ts:2595-2712 | served whole: succeeds exactly when the file exists and every chunk is stored or uploaded at its size, else answers exactly the chunks still to upload; marks exactly what is there; removes exactly the objects of another length among them |
| `FilesRoutes.FilesService.PutObject` | services/control/src/app.ts:2804-2845 | an upload of the signed length keeps every stored chunk backed |
| `FilesRoutes.CompleteVerdict` | services/control/src/app.ts:2604-2704 | the HEAD phase and the recheck together decide exactly whether every byte is there |
| `FilesRoutes.OthersStayReadable` | services/control/src/app.ts:2374-2386 | removing the objects of chunks nobody names leaves every other complete file downloadable |
| `FilesRoutes.CompleteIsReadable` | services/control/src/app.ts:2604-2704 | when an address fixes its length, a complete file can be read back at its declared lengths |
| `FilesRuns.RunsStaySound` | services/control/src/app.ts:2323-2704 | in every interleaving of creates, replaces, deletes, HEADs, removals and the single statements of complete-upload: exact counts, a row exactly while some file names it, quota kept; and complete files have all chunks stored all along exactly when every marking finds them stored |
| `FilesRuns.FileIsAsRecorded` | services/control/src/app.ts:2496-2529 | in every run a file is what was last recorded for it: one manifest's address, size and chunks together, at its path |
| `FilesRuns.FilesThereWereRecorded` | services/control/src/app.ts:2323-2704 | in every run the files there are exactly those some step recorded and no later step deleted |
| `FilesRuns.CompleteRunIsTheRoute` | services/control/src/app.ts:2595-2712 | a complete-upload whose steps follow one another, its HEADs in any order, has the effect on tables and bucket of the route served whole |
| `FilesRuns.CreateRunIsTheRoute` | services/control/src/app.ts:2462-2580 | a create whose steps follow one another, its removals in any order, has the effect on tables and bucket of the route served whole |
| `FilesRuns.DeleteRunIsTheRoute` | services/control/src/app.ts:3252-3276 | and so has a delete |
| `FilesRuns.OnlyAReplaceSpoilsTheCheck` | services/control/src/app.ts:2678-2700 | in every run, from the passed check of a file until a manifest is recorded for that very file, marking it complete is safe whatever else commits |
| `FilesRuns.StatementsMakeComplete` | services/control/src/app.ts:2662-2704 | the three statements one right after the other are the transaction |
| `FilesRuns.RunsChargeDistinctChunks` | services/control/src/app.ts:2272-2284 | in every run the account is charged for each distinct chunk its files name, once, at its length, and never beyond its limit |
| `FilesRuns.MarksSurvive` | services/control/src/app.ts:2662-2676 | along any step of any run a row goes exactly when no file names it, and a row that stays keeps its mark |
| `FilesRuns.BackedExactlyWhenSafe` | services/control/src/app.ts:2366-2386 | which steps keep every stored chunk backed by its object: exactly those that meet the stated check |
| `FilesRuns.RunsBackedExactlyWhenSafe` | services/control/src/app.ts:2366-2386 | a run keeps every stored chunk backed by its object all the way exactly when each of its steps meets its check |
| `FilesRuns.StaleHeadsMarkLostChunk` | services/control/src/app.ts:2604-2676 | a run in which a stale HEAD list marks a re-created row whose object is gone: the bucket property is one of requests served whole |
| `FilesRuns.UnlockedCompleteCanLie` | services/control/src/app.ts:2681-2700 | a run from the start in which a replace commits between the check of complete-upload and its last statement, and the file ends up complete although its chunk is not stored |
| `Chunker.CutIsBoundary` | packages/chunking/src/index.ts:109-132 | the scan finds the first boundary and there is only one: iff |
| `Chunker.NextBoundary` | packages/chunking/src/index.ts:109-132 | the two loops with the wrapping 32-bit hash compute that boundary |
| `Chunker.FastCdcCuts` | packages/chunking/src/index.ts:109-132 | with the production masks the cut is at the first hash whose 22 masked bits, past the average size 18, are all zero: iff, below the hard limit |
| `Masks.MaskWithBits` | packages/chunking/src/index.ts:40-50 | the mask loop makes a 32-bit word with exactly as many bits as asked, in the places it spreads them to; the test against it is that all of those are zero |
| `Masks.BitCountSetsTheShare` | packages/chunking/src/index.ts:40-61 | the bit count sets the expected distance between cuts: of all 2^32 hashes exactly one in 2^bits passes |
| `Masks.EvenlySpaced` | packages/chunking/src/index.ts:40-50 | the masked bits are spread evenly over the word, each at its share of the width |
| `Chunker.StrictPassesFewer` | packages/chunking/src/index.ts:52-61 | the strict test passes one hash in 4194304 and the loose one in 262144, with the average size between them |
| `Chunker.ChunkingIsUnique` | packages/chunking/src/index.ts:139-149 | the chunks are the one way to cut the input so that each ends at the first boundary of what is left: iff |
| `Chunker.PiecesTile` | agent/src/chunker.rs:158-172 | chunks laid end to end are the input, none is empty or above the maximum, and every one but the last is above the minimum |
| `Chunker.FileFitsManifest` | agent/src/chunker.rs:116-172 | a file of at most n * (MIN + 1) bytes has at most n chunks |
| `Chunker.PlacedAt` | packages/chunking/src/index.ts:139-149 | each chunk is recorded at the offset where its bytes lie, with their length and address |
| `Chunker.ChunkBuffer` | packages/chunking/src/index.ts:139-149 | the whole-buffer loop yields exactly those chunks |
| `Chunker.CutIsLocal` | packages/chunking/src/index.ts:102-132 | a window of the maximal chunk size, or the true tail, decides the boundary the whole input would |
| `Chunker.Refill` | agent/src/chunker.rs:247-254 | reading on until the window decides a boundary or the stream ends leaves the manifest to come unchanged |
| `Chunker.ChunkReader` | agent/src/chunker.rs:238-275 | for every way of splitting a stream into reads, exactly the whole-buffer manifest, or the read error |
| `Chunker.StreamingManifestBuilder.Push` | packages/chunking/src/index.ts:193-203 | refused once finished; otherwise the state stands for the longer input, whatever the pushes |
| `Chunker.StreamingManifestBuilder.Cutting` | packages/chunking/src/index.ts:216-231 | cutting while the pending bytes decide leaves less than one maximal chunk, or nothing at the end, and the manifest to come unchanged |
| `Chunker.StreamingManifestBuilder.Finish` | packages/chunking/src/index.ts:205-214 | the manifest of everything pushed equals the whole-buffer one; only once |
| `ContentDefined.RollIsWeightedSum` | packages/chunking/src/index.ts:118-130 | the hash of a string is the sum of its gear values, each doubled once for every byte after it, modulo 2^32 |
| `ContentDefined.LastByteTells` | packages/chunking/src/index.ts:118-130 | the last byte enters the hash: two bytes give one hash exactly when their gear values are equal |
| `ContentDefined.ByteTells` | packages/chunking/src/index.ts:118-130 | so does a byte some places back, exactly as far as the shifts since then leave of it |
| `ContentDefined.RollForgets` | packages/chunking/src/index.ts:118-130 | after 32 bytes the rolling hash does not depend on what came before |
| `ContentDefined.RollRemembers` | packages/chunking/src/index.ts:118-130 | 32 is exact: after fewer bytes two hashes one apart still differ |
| `ContentDefined.ScansAgree` | agent/src/chunker.rs:116-150 | two scans from different starts agree once both have consumed the same 32 bytes |
| `ContentDefined.StopsAgree` | packages/chunking/src/index.ts:109-132 | and so they cut alike: having read the same 32 bytes on the same side of the average size, both stop at that byte or neither does |
| `ContentDefined.SharedSuffixSharesChunks` | packages/chunking/src/index.ts:139-149 | files that share a suffix with a cut at its start have every later chunk in common, length and address |
| `ContentAddresses.AddressRoundTrip` | sidecar/src/cache.rs:38-71 | a text parses to a digest exactly when it is the digest printed: one spelling per address |
| `ContentAddresses.HexDigitAt` | sidecar/src/cache.rs:38-71 | two lower-case digits for each byte, in order, the upper half first |
| `Assembly.AssembleFromChunks` | packages/chunking/src/index.ts:235-257 | succeeds exactly when every chunk is at hand at its length, the total agrees and the whole has the file address; then returns that whole |
| `Assembly.ChunkedFileAssembles` | packages/chunking/src/index.ts:171-257 | any store that has a file's chunks lets its manifest assemble back to the file |
| `ChunkCache.MakeRoomIsShortest` | sidecar/src/cache.rs:153-167 | what is evicted is the shortest run of least recently used chunks that makes room |
| `ChunkCache.UsedKeeps` | sidecar/src/cache.rs:146-151 | a use reorders and neither adds nor drops a chunk |
| `ChunkCache.Cache.Touch` | sidecar/src/cache.rs:146-151 | one new stamp moves the chunk to the recent end of the list the map stands for |
| `ChunkCache.Cache.Get` | sidecar/src/cache.rs:122-128 | answers exactly for held chunks, with their bytes, and marks them used |
| `ChunkCache.Cache.EvictToFit` | sidecar/src/cache.rs:153-167 | evicting by least stamp is dropping from the old end of the list |
| `ChunkCache.Cache.Insert` | sidecar/src/cache.rs:97-120 | the cache refines a recency list within its byte bound; stamps stay distinct and every entry hashes to its key; a chunk that can fit at all is held afterwards, as the most recent |
| `ChunkCache.InsertedIsRecent` | sidecar/src/cache.rs:97-120 | an inserted chunk is the most recent, and before it stays the longest recent run that leaves it room |
| `ChunkCache.RecentChunksAreHeld` | sidecar/src/cache.rs:97-128 | over any run of inserts and gets, a chunk stays held while it and the distinct chunks used since fit together |
| `ChunkCache.DistinctChunksFit` | sidecar/src/cache.rs:97-128 | chunks whose distinct ones fit together fit all along, in whatever order they are used |
| `Hydration.DeclaredBytes` | sidecar/src/cache.rs:299-328 | accepts exactly the manifests within the chunk bounds whose parts add up; the overflow check never fails within them |
| `Hydration.ObtainChunk` | sidecar/src/cache.rs:352-373 | cache first, with no fetch; fetched bytes are verified before they are cached or used, then inserted and held if they fit; a failure leaves the cache as it was |
| `Hydration.NextChunk` | sidecar/src/cache.rs:342-380 | one turn of the loop: address, offset, bytes and length, or the defect it stopped at |
| `Hydration.HydrateInto` | sidecar/src/cache.rs:330-397 | for every source, sink and valid cache: success means bytes at their offsets with their addresses and the file hash, failure names a real defect, and the cache is valid after either; with every chunk cached nothing is fetched; after a success the chunks are all held if they fit |
| `Hydration.Disk.HydrateToPath` | sidecar/src/cache.rs:238-271 | the destination becomes a whole verified file or stays as it was; no other file changes; after a failure the temporary file is left behind exactly when it was created and the removal or rename it was owed failed |
| `Hydration.NothingToBlame` | sidecar/src/cache.rs:330-397 | with an honest source no failure has a reason |
| `Hydration.ChunkedDeclares` | sidecar/src/cache.rs:299-328 | a chunked file is accepted exactly when it has no more chunks than a manifest may hold, and always up to 16384 * (MIN + 1) bytes |
| `Hydration.RoundTrip` | sidecar/src/cache.rs:299-397 | chunk a file, hydrate its manifest from an honest source: the original bytes, for any valid cache |
| `Hydration.OnlyTheFile` | sidecar/src/cache.rs:330-397 | what assembles from a file's manifest is the file and nothing else: iff |
| `Hydration.KeptForNextTime` | sidecar/src/cache.rs:330-397 | a manifest whose distinct chunks fit in the cache is held whole once it has been hydrated |
| `Hydration.HydrateTwice` | sidecar/src/cache.rs:330-397 | and so hydrating it again asks the source for nothing |
| `Scrollback.CuttingIsUnique` | agent/src/pty.rs:99-112 | lines end at newlines and nowhere else, and there is one such cutting of a string |
| `Scrollback.RingHoldsTail` | agent/src/pty.rs:69-112 | the ring holds the stream from its base offset on, at most `max_lines` lines, and gave up none it could have kept |
| `Scrollback.BaseGrows` | agent/src/pty.rs:108-112 | what is evicted stays evicted |
| `Scrollback.Scrollback.Absorb` | agent/src/pty.rs:101-106 | piece by piece the lines and the partial line become those of the longer string |
| `Scrollback.Scrollback.Evict` | agent/src/pty.rs:107-111 | the oldest lines go until the cap holds, and the base offset moves by their bytes |
| `Scrollback.ReadParts` | agent/src/pty.rs:116-128 | the loop over the parts reads them as one string from the start offset |
| `Scrollback.Scrollback.Push` | agent/src/pty.rs:99-112 | the state after a push is a function of the bytes so far, however they were split |
| `Scrollback.Scrollback.BytesSince` | agent/src/pty.rs:115-128 | exactly the stream from max(n, base) to its end |
| `Scrollback.Scrollback.ReplaceRetained` | agent/src/pty.rs:148-153 | the window is replaced and offsets go on |
| `Scrollback.PersistedReplay` | agent/src/pty.rs:1154-1165 | a ring rebuilt in one push from the log of a direct spawn serves what the live one would |
| `PtyPump.Pump.OnChunk` | agent/src/main.rs:398-412 | skip, trim or write one chunk, and where `delivered` stands |
| `PtyPump.Pump.OnLag` | agent/src/main.rs:373-395 | resync writes what the ring has from `delivered` on |
| `PtyPump.DeliversInOrder` | agent/src/main.rs:327-414 | in every interleaving: stream bytes only, in order, none twice; a payload that does not start where the last one ended is a replay read from the base the ring had at that moment to the end of the stream, so every missing byte had left the ring when the replay that skipped it was read |
| `PtyPump.NothingToTrim` | agent/src/main.rs:401-409 | `delivered` is always a chunk end: a chunk is written whole or not at all |
| `PtyPump.QuietMeansCaughtUp` | agent/src/main.rs:327-414 | a pump with nothing left to receive has delivered to the end of the stream |
| `PtyPump.ClosesWhenAllIsDelivered` | agent/src/main.rs:365-370 | a pump that ends because the broadcast has closed has delivered to the very end |
| `PtyPump.DeliversEverything` | agent/src/main.rs:372-414 | while the ring held its place at each resync, the payloads are one contiguous stretch of the stream |
| `CtlChannel.AnswersExactlyTheAwaited` | agent/src/dispatch.rs:150-174 | dispatch answers exactly the requests the client awaits, with the expected kind or an error; others put nothing on the wire, refused or not |
| `CtlChannel.ErrorsAreRefusals` | agent/src/dispatch.rs:176-375 | an awaited request is answered with an error exactly when it was denied, was malformed or failed; a success with its own kind, about the session or fetch it names |
| `CtlChannel.AnswersAreTheRequests` | agent/src/proto.rs:138-153 | on every run what resolves a request is the response that dispatching that very request gave |
| `CtlChannel.EventsAnswerNothing` | agent/src/proto.rs:276-302 | no background event has a kind that any request awaits, nor is one an error |
| `CtlChannel.CtlQueue.HandleCtl` | agent/src/main.rs:500-529 | one frame per awaited request, in send order, and none for any other |
| `CtlChannel.MatchingNeverSlips` | agent/src/proto.rs:138-153 | on every run the k-th awaited request is resolved by its own response; listeners hear events only |
| `CtlChannel.EveryAwaitedIsAnswered` | agent/src/main.rs:129-148 | when both directions are empty every awaited request has its answer |
| `FetchTasks.FetchTable.Register` | agent/src/dispatch.rs:388-397 | refused exactly while the id is running |
| `FetchTasks.FetchTable.Unregister` | agent/src/dispatch.rs:399-409 | only the registered signal takes itself out |
| `FetchTasks.FetchTable.Cancel` | agent/src/dispatch.rs:411-418 | the signal of a running id is raised and kept |
| `FetchTasks.AtMostTwoDownloads` | agent/src/dispatch.rs:300-306 | in every run permits and downloads add up to two |
| `FetchTasks.OneTerminalEach` | agent/src/dispatch.rs:286-360 | each accepted fetch has exactly one terminal event, before its id is accepted again, and progress only in between |
| `FetchTasks.CancelIsNotLost` | agent/src/dispatch.rs:411-418 | a cancel sent at any moment stays raised until its download sees it or is over |
| `FetchTasks.OnlyLinksTouchTheTree` | agent/src/dispatch.rs:50-54 | the only step that touches the tree puts this fetch's bytes where nothing was |
| `FetchTasks.DoneMeansLinked` | agent/src/dispatch.rs:307-346 | done is reported only for bytes this fetch linked at its target, and they are what it received, in order |
| `FetchTasks.DoneExactlyWhenLinked` | agent/src/dispatch.rs:307-346 | in every run a terminal entry is a success exactly when some step linked its task's bytes at the target, and a failure exactly when its download broke, a cancel was seen or the link did not happen |
| `FetchTasks.LinkIsExact` | agent/src/dispatch.rs:50-54 | the link happens exactly when the call works and nothing is at the target |
| `FetchTasks.ReportsWhatItReceived` | agent/src/dispatch.rs:269-346 | in every run only its own download writes the staging file of a task |
| `WatchDigest.ListingOrderIsIrrelevant` | agent/src/watch.rs:103-112 | the order in which the system lists a directory makes no difference |
| `WatchDigest.SerialiseUnique` | agent/src/watch.rs:86-150 | the byte stream decodes uniquely, whatever follows it |
| `WatchDigest.EqualStreamsEqualTrees` | agent/src/watch.rs:86-150 | two trees have equal streams exactly when they show the same names, kinds, lengths, mtimes and nesting |
| `WatchDigest.SameShownIsVisible` | agent/src/watch.rs:113-144 | walking names down readable, unskipped directories within the depth cap: two trees show the same kind, length and mtime at every path exactly when they are listed the same |
| `WatchDigest.StreamsTellTrees` | agent/src/watch.rs:86-150 | so their streams are equal exactly when they have the same at every shown path |
| `WatchDigest.TimesAreShown` | agent/src/watch.rs:138-139 | a change of mtime alone, at any shown file, changes the stream |
| `WatchDigest.ScanEntries` | agent/src/watch.rs:113-144 | one directory: what is fed, what is stacked, what is counted |
| `WatchDigest.ScanStream` | agent/src/watch.rs:86-150 | the stack loop feeds that stream for trees under the entry cap, and never counts beyond the cap |
| `WatchDigest.Watcher.Tick` | agent/src/watch.rs:56-81 | between trees within the cap a change is announced only if something at a shown path has another kind, length or mtime, and always then unless two streams collide; the first scan primes |
| `VfsPaths.NormalizeVfsPath` | agent/src/vfs.rs:274-290 | the loop over segments computes the normal form |
| `VfsPaths.NormalFormNamesTheSamePlace` | agent/src/vfs.rs:271-290 | refused exactly when inadmissible or escaping the root; otherwise the normal form names the same place, in plain names |
| `VfsPaths.WalkFailsWhenItEscapes` | agent/src/vfs.rs:279-288 | a path is refused exactly when some prefix of it goes up more often than down |
| `VfsPaths.NameThenUpCancels` | agent/src/vfs.rs:279-288 | a name followed by `..` cancels wherever it stands: `..` takes back the last name and no other |
| `VfsPaths.DotIsSkipped` | agent/src/vfs.rs:279-281 | an empty segment or a `.` changes nothing |
| `VfsPaths.OneSpellingPerPlace` | agent/src/vfs.rs:271-290 | two admissible paths have one normal form exactly when they name one place |
| `VfsPaths.NormalisedTwice` | agent/src/vfs.rs:274-290 | normalising again changes nothing exactly when the normal form is within the length limit |
| `VfsPaths.NormalFormIsShort` | agent/src/vfs.rs:289 | the normal form is at most one character longer |
| `VfsPaths.LongestNameIsRefusedTheSecondTime` | agent/src/vfs.rs:275 | a 4096-character relative name has a normal form that is refused |
| `VfsMutations.RequestsLinearise` | agent/src/vfs.rs:648-669 | every interleaving of looks and changes under the lock has the effect and the answers of one-at-a-time execution |
| `VfsMutations.RefusalsChangeNothing` | agent/src/vfs.rs:648-950 | a refusal changes the tree exactly when its calls failed after some effect: a half-written append, a half-done recursive delete, a half-made directory path, a temporary file that could not be removed; a conflict never does |
| `VfsMutations.RefusalsSpare` | agent/src/vfs.rs:648-950 | what a refusal can change at all: nothing is lost but below a recursive delete, no contents change but an append extends its own file, and only temporary files and parent directories are added |
| `VfsMutations.AppendCanStopHalfWay` | agent/src/vfs.rs:794-837 | an append of two bytes that is refused after writing one |
| `VfsMutations.DeleteCanStopHalfWay` | agent/src/vfs.rs:728-751 | a recursive delete that is refused after removing one of two files |
| `VfsMutations.MkdirCanStopHalfWay` | agent/src/vfs.rs:754-765 | a mkdir that is refused after making the first of two directories |
| `VfsMutations.WriteCanLeaveItsTemporary` | agent/src/vfs.rs:679-706 | a write that is refused and leaves its temporary file |
| `VfsMutations.ReplaceIsExact` | agent/src/vfs.rs:880-949 | replace goes through exactly from its expected contents, and a conflict is exactly anything else there, or nothing |
| `VfsMutations.WriteIsExact` | agent/src/vfs.rs:648-712 | a conditional write goes through exactly over a file of its expected size, an unconditional one exactly where there is a parent directory and no directory in its place; size and contents after it; not found and conflict exactly when |
| `VfsMutations.DeleteSucceeds` | agent/src/vfs.rs:714-752 | a delete succeeds exactly for what is there and not the root, and without the flag only for a leaf |
| `VfsMutations.DeleteIsExact` | agent/src/vfs.rs:714-752 | it takes what is at and below its path and nothing else; without the flag one entry |
| `VfsMutations.MkdirIsExact` | agent/src/vfs.rs:754-765 | making a directory works exactly when no file is in the way, loses nothing, adds only its own missing ancestors, and doing it again changes nothing |
| `VfsMutations.AppendIsExact` | agent/src/vfs.rs:794-837 | an append goes through exactly on a file, on condition of a size exactly at that size; contents and answered length after it; conflict, directory and not found exactly when |
| `VfsMutations.AppendRangesAreDisjoint` | agent/src/vfs.rs:794-837 | successful conditional appends claim disjoint consecutive ranges and their bytes are there at the end |
| `VfsMutations.RenameKeepsEverything` | agent/src/vfs.rs:1019-1082 | a rename loses nothing, adds nothing and merges nothing |
| `VfsMutations.RenameSucceeds` | agent/src/vfs.rs:1019-1082 | a rename succeeds exactly from something there to a free place in a directory, not below itself |
| `VfsMutations.RenameIsUndone` | agent/src/vfs.rs:1019-1082 | the rename the other way is allowed and restores the tree |
| `VfsMutations.PerformKeepsShape` | agent/src/vfs.rs:620-950 | every request keeps the parent of everything a directory |
| `VfsMutations.RunsKeepShape` | agent/src/vfs.rs:648-669 | and so does every run |
| `VfsMutations.PayloadAccepted` | agent/src/vfs.rs:627-647 | a payload is accepted exactly up to 8388606 bytes: the first check refuses the last two bytes the limit names |
| `VfsMutations.PayloadIsBounded` | agent/src/vfs.rs:627-647 | no text, encoded or not, decodes to more than that; too large is answered exactly by the check on the text, never by the one on the bytes |
| `VfsMutations.FilesTree.WriteFile` | agent/src/vfs.rs:648-712 | check by check, a conditional write, and what a failed one leaves |
| `VfsMutations.FilesTree.AppendFile` | agent/src/vfs.rs:794-837 | check by check, a conditional append, and what a failed one leaves |
| `VfsMutations.FilesTree.ReplaceFile` | agent/src/vfs.rs:880-950 | check by check, a replace, and what a failed one leaves |
| `Base64.Encode` | agent/src/vfs.rs:1121-1142 | three bytes at a time, the encoding |
| `Base64.Decode` | agent/src/vfs.rs:1159-1188 | four characters at a time, the decoding or the first error |
| `Base64.EncodedDecodes` | agent/src/vfs.rs:1121-1188 | whatever is encoded decodes to itself |
| `Base64.DecodedEncodes` | agent/src/vfs.rs:1155-1188 | a text that decodes is the encoding of its bytes exactly when no bit of it is left over |
| `Base64.LeftoverBitsAreDropped` | agent/src/vfs.rs:1155-1159 | the texts of one and of two bytes that differ only in dropped bits, and which of them is the encoding |
| `Base64.EncodingKeepsBits` | agent/src/vfs.rs:1121-1142 | bit by bit the encoding is the data, cut into sixes and filled up with zeros |
| `Base64.SymbolsInOrder` | agent/src/vfs.rs:1117-1119 | the characters are those of the standard alphabet, in its order |
| `Base64.DecodesExactly` | agent/src/vfs.rs:1159-1188 | exactly the texts decode that are groups of four from the alphabet with at most two pads, at the very end |
| `Hlc.CompareIsTotalOrder` | packages/protocol/src/hlc.ts:22-27 | a total order whose ties are equal stamps: by time, then counter, then device |
| `Hlc.HlcClock.Send` | packages/protocol/src/hlc.ts:66-75 | later than everything so far, and not before the wall clock |
| `Hlc.SentIsLeast` | packages/protocol/src/hlc.ts:66-75 | and no later than that takes: the least reading after everything so far and not before the wall clock |
| `Hlc.ReceivedIsLeast` | packages/protocol/src/hlc.ts:77-98 | a receive gives the least reading after everything so far and after the clamped remote stamp, and not before the wall clock |
| `Hlc.HlcClock.Receive` | packages/protocol/src/hlc.ts:77-98 | later than everything so far; later than the remote exactly when that is within the drift or this clock was ahead anyway |
| `Hlc.HlcClock.Restore` | packages/protocol/src/hlc.ts:101-109 | the later of the two readings: never goes back |
| `Hlc.StampsIncrease` | packages/protocol/src/hlc.ts:66-109 | over any run, restores and backward wall clocks included, stamps strictly increase |
| `Hlc.DriftIsBounded` | packages/protocol/src/hlc.ts:81-98 | without restores the physical part never passes the latest wall reading plus 60 s |
| `Hlc.EncodeRoundTrip` | packages/protocol/src/hlc.ts:37-54 | decoding gives back exactly the stamps within the digit widths that name a device; others do not decode |
| `Hlc.EncodingKeepsOrder` | packages/protocol/src/hlc.ts:33-41 | within the widths the strings sort as the stamps do |
| `Hlc.OrderNeedsTheWidth` | packages/protocol/src/hlc.ts:33-41 | beyond the width the order can turn round |
| `OfflineQueue.FoldWins` | packages/protocol/src/workspace.ts:254-260 | merging any list leaves, for each id, a latest of what there was and what came |
| `OfflineQueue.SortKeeps` | packages/protocol/src/messages.ts:232-234 | sorting keeps the records, puts them in clock order, and leaves those with one stamp in whatever order they came: it is stable |
| `OfflineQueue.OfflineQueue.Compacted` | packages/sync-engine/src/queue.ts:64-73 | one record per id: a latest one, and of several equally late the first that came; in the order the ids were first mentioned |
| `OfflineQueue.OfflineQueue.Peek` | packages/sync-engine/src/queue.ts:50-52 | by clock, and records with one stamp in the order their ids were first mentioned; the queue stays |
| `OfflineQueue.OfflineQueue.Drain` | packages/sync-engine/src/queue.ts:55-62 | the same list, and the queue is empty |
| `OfflineQueue.CompactionKeepsMeaning` | packages/sync-engine/src/queue.ts:55-73 | when a stamp identifies a mutation, merging the drained records gives what merging all would, in any order |
| `OfflineQueue.DrainMergesAsEnqueued` | packages/sync-engine/src/queue.ts:55-73 | with no assumption on stamps, the drained records merge to what all give in the order they were enqueued |
| `OfflineQueue.DrainIsDetermined` | packages/sync-engine/src/queue.ts:55-73 | the drained list is determined by what was enqueued, equal stamps included |
| `OfflineQueue.CompactionIsDetermined` | packages/sync-engine/src/queue.ts:64-73 | and so is the compacted one, order included |
| `OfflineQueue.TiesDependOnOrder` | packages/protocol/src/workspace.ts:254-260 | merging two mutations of one id is order-independent exactly when their stamps differ or they are the same |
| `MuxFrames.Pipe.WriteFrame` | agent/src/mux.rs:97-117 | refused before anything is written, or written whole |
| `MuxFrames.Pipe.ReadFrame` | agent/src/mux.rs:121-147 | waits exactly while more can come and too little is there; else takes exactly one frame off, or reports the end or the error; and what each outcome leaves to be read |
| `MuxFrames.ArrivalDoesNotMatter` | agent/src/mux.rs:119-147 | however a stream is split on its way, the frames read as pieces arrive, and the error, are those of the whole |
| `MuxFrames.ClosingReadsAll` | agent/src/mux.rs:119-147 | what is left when the writer closes is a clean end or a frame cut short, as reading the whole stream says |
| `MuxFrames.FramesArrive` | agent/src/mux.rs:97-147 | frames written one after the other arrive in order however they are split |
| `MuxFrames.ReadInvertsWrite` | agent/src/mux.rs:97-147 | a frame is read exactly from its own bytes, whatever follows: iff |
| `MuxFrames.WireLayout` | agent/src/mux.rs:7-15 | where everything is in a frame: four length bytes and two, highest first, then the name and the payload |
| `MuxFrames.PinnedFrame` | agent/src/mux.rs:232-249 | the byte layout both ends pin |
| `MuxFrames.FramesRoundTrip` | agent/src/mux.rs:97-147 | any list of frames is read back in order to a clean end |
| `MuxFrames.CutFrame` | agent/src/mux.rs:119-133 | a stream cut inside a frame is an error, except inside the four length bytes, which reads as a clean end |
| `MuxFrames.NameParses` | agent/src/mux.rs:82-95 | every channel name parses back to its channel, and unnameable channels do not parse |
| `MuxFrames.ParsedNamesBack` | agent/src/mux.rs:49-80 | a parsed name is the channel's own name exactly when a port does not start with a plus sign or a zero |
| `MuxFrames.AnySpellingParses` | agent/src/mux.rs:49-80 | a forward is parsed exactly from the digits of its port, leading zeros included, with or without a plus sign, and a stream id that is not empty |
| `MuxFrames.PortsMayLookOdd` | agent/src/mux.rs:49-80 | `fwd/+80` and `fwd/0080` parse to port 80 |

## Left out

- Weak transaction isolation: a transaction under the account lock (create and replace at app.ts:2479, delete at 3262; the only other admits a transfer, at 2957) is one atomic step. The statements of complete-upload's unlocked one (app.ts:2662-2704) are steps of their own in `FilesRuns`, with the reads of its check as one, and what they write shows at once rather than at commit.
- FilesLedger.CompleteKeepsSound: takes that transaction in one go, as when a request is served whole; its statements interleaved are `FilesRuns.RunsStaySound`.
- `FilesRoutes.FilesService` takes manifests the request schema has admitted: path rules, chunk bounds and contiguity of a manifest are checked before the transaction and are not repeated in it. `updatedAt`, `contentType`, audit rows, presigned URLs and the batching of inserts are left out.
- FilesRoutes.FilesService.PutObject: an upload is one step whose length equals the row's for a stored chunk, because its URL was signed for that length; uploads of unstored chunks may have any length.
- Bucket-level races between one request's HEADs or removals and another request: stated as the exact condition per step and per run, with a counterexample, not as an invariant.
- `softBlocked` and the explanation text of the quota verdict, which decide nothing in these routes.
- Widths of integers other than the rolling hash, the lengths in digests and frames, and the sums checked for overflow: file sizes, counts and offsets are unbounded.
- Tree contents that change while a scan or a hydration runs; `scan_digest` is stated for one snapshot, for names that are valid UTF-8, and below the entry cap.
- Symbolic links, sockets and devices in the Files tree, permissions, and other programs that write to it without the lock. Names of temporary files are taken to be new. A call that fails is answered with one code, whatever kind of error it reports.
- VfsMutations.FilesTree.WriteFile: delete, mkdir and rename have no method of their own; they are specified by `Perform`, to which all properties apply. The size check of `replace`, over both payloads together, is left out.
- `vfs.tree`, `list`, `stat` and `read`, and the symlink check of path resolution.
- PtyPump.DeliversInOrder: runs with `replace_retained` (tmux captures move offsets without a broadcast) are outside it, and so are runs in which the id of a removed session is spawned again (agent/src/pty.rs:705-709), where a lagging pump may read the ring of the new session; as are exit reporting and the capability check before a pump starts. A failed write ends the pump and may have sent part of a frame.
- CtlChannel.MatchingNeverSlips: requests that do not parse are left out (they are always answered with an error), and so is the loss of a connection, which rejects everything pending. Whether `fetch.started` precedes its fetch's own events is not claimed. Capability refusals are one bit; what a response carries besides its kind is an opaque text.
- FetchTasks.OneTerminalEach: the download itself is a sequence of writes to the staging file that may fail at any point; fairness of the permit queue and progress of a task are not modelled, and removing the staging file and sending the event are one step. Staging names are taken to be distinct from file names.
- Hlc.EncodeRoundTrip: `parseInt` is modelled as reading the leading hex digits; the white space, sign and `0x` prefix it would also accept are left out. Clocks and counters are natural numbers of any size.
- `mergeLww` with a null value is one of the bodies a record can carry; storage backends other than the in-memory one are left out.
- VfsPaths.NormalizeVfsPath: lengths count the units of the string as given; Rust counts bytes where TypeScript counts UTF-16 units.
- MuxFrames.Pipe.ReadFrame: a read that waits is one that takes nothing yet; cancelling it while it waits, and errors of the transport other than its end, are left out.
- BLAKE3, AES, Ed25519, HTTP routing, schema parsing, sockets, TLS, tmux, Postgres, and everything under `apps/` except the response matching of the ctl client.
- `decideEgress`, `cloudFetchEligibility`, `checkCapability`, `decideSuspend`, abuse caps and billing: settled by reading one branch each.
