# Verified models of Zipfast

Zipfast is a file-sharing server in Go that carries the TypeScript code it was ported from. This
project models the stateful and algorithmic parts that sit under its HTTP and SQL code, and proves
what they promise. SQL tables, the temp directory and object storage are maps; one SQL statement,
one file operation and one event callback are one atomic step; everything the clock, the network or
a foreign library decides is a parameter, or a choice of the run. `dafny verify dfyconfig.toml`
checks everything.

Where the source changes state, the model does too: classes with `modifies` clauses for the temp
directory, the folder tables, the rate limiter's map, the TTL cache, the worker pool, the SET builder
and the settings server; an array for the image buffer; loops where the source has loops. Each
method is proved against a specification, and the promised properties are lemmas about that
specification. Protocols in which several requests or goroutines interleave are state machines, and
their theorems are about every run (`StateMachines`).

| part | files |
|---|---|
| chunked uploads: name encoding, assembly, the interleaved protocol, the offset-writing form | `FileNames`, `Ranges`, `ChunkNames`, `ChunkAssembly`, `ChunkUpload`, `ChunkProtocol` |
| dropping Exif segments from a JPEG, erasing GPS entries in place | `JpegStrip`, `GpsErase` |
| folder graphs with possible cycles | `FolderGraph`, `FolderHierarchy`, `FolderTree`, `FolderDelete`, `FolderActions`, `ZipCollector` |
| unique entry names of an archive | `ZipNames` |
| worker pools | `ThumbnailRun`, `ThumbnailPool` |
| caches and counters | `TimedCache`, `RateLimit`, `ViewLimit` |
| settings, SQL text, thinning of chart points | `Durations`, `Settings`, `SettingsSchema`, `SetBuilder`, `Downsample` |
| shared | `Arithmetic`, `Bytes`, `Decimal`, `GoText`, `Sequences`, `StateMachines`, `Wrappers` |

## Where the code does not do what one would expect

Each item names lemmas: where an expected property fails, one gives an input on which it does, and
another says for all inputs when it holds.

- A JPEG whose walk ends without SOS or EOI after something was removed can lose one stray last byte
  (`JpegStrip.StrayByteIsLost`). No byte is lost exactly when the walk reaches SOS or EOI or nothing
  is left over (`JpegStrip.Conservation`).
- `removeGps` writes a file back only if it reports a removal, and on a PNG file it reports on the last
  eXIf chunk alone and throws where reading on for IEND fails. GPS entries of an earlier chunk
  (`GpsErase.EarlierErasureUnreported`) or of a truncated file (`GpsErase.ErasedThenThrown`) are then
  erased in memory only. The file gets what was erased exactly when all those entries were zero
  already, or the walk reaches IEND and the last eXIf chunk has a GPS pointer
  (`GpsErase.PngSavedIff`); for JPEG and TIFF it always does (`GpsErase.OtherFormatsSave`).
- Moving the children of a deleted folder under a folder below it makes a cycle
  (`FolderActions.MoveMakesCycle`); any other target keeps a forest (`FolderActions.MoveKeepsForest`).
- Pruning the rate limiter's map becomes visible when a bucket needs longer than the idle time to
  refill (`RateLimit.LongWindowShows`, for one event in 601 seconds), and only then
  (`RateLimit.PruningInvisible`). Windows of at most ten minutes and no window are safe
  (`RateLimit.ShortWindowInvisible`). Nothing in `internal/config/config.go` assigns the field
  `Window` that line 164 declares, so a longer window cannot be configured today.
- The documentation of `processTargets` says that no file is scheduled once the context is done; one
  more can be (`ThumbnailRun.OneMoreCanHappen`), but not two (`ThumbnailRun.AtMostOneMore`), and none
  exactly when the loop is not between its check of the context and the go statement
  (`ThumbnailRun.StopsIffUncommitted`).
- An error event of an idle worker while another has a batch, or of one with several batches, makes the thumbnail pool's busy
  counter wrong (`ThumbnailPool.IdleErrorKillsWork`, and `ThumbnailPool.ErrorKeepsBusyIff` for the
  exact condition).
- The last `busy === 0` test in `dispatch` can never succeed: the counter is positive there
  (`ThumbnailPool.ThumbnailPool.DispatchIds`).
- A time to live beyond 2^31 - 1 milliseconds makes a cached entry disappear after one
  (`TimedCache.LongTtlForgets`; Node turns such a timer delay into 1 ms); up to it the cache behaves
  as one without timers (`TimedCache.TraceAgrees`). No caller passes a time to live today, and the
  three caches are made with 5 seconds, 2 minutes and 3 minutes.
- From a list longer than max, `downsample` returns max points exactly when max is at least 2; max = 0
  and max = 1 still give the end points (`Downsample.DownsamplePoints`).
- Whether a response counts as a view and whether it sends the object from byte 0 differ in exactly
  these cases (`Ranges.ViewCountsIff`, over all headers and sizes). Where the whole object is sent in
  spite of a Range header, because the range is malformed or out of bounds or the object has no
  positive size, it is not counted unless the header begins with "bytes=0"
  (`Ranges.OtherUnitsExample`, `Ranges.EmptyObjectUncounted`). Where a part is sent, the last n bytes
  of an object that has no more are not counted (`Ranges.SuffixOfAllExample`), a part from a number
  other than 0 written with a leading zero is (`Ranges.PaddedNumberExample`), and one from a 0 behind
  white space or a plus sign is not (`Ranges.HiddenByBlank`, `Ranges.HiddenByPlus`).

## Model

| member | source | states |
|---|---|---|
| ChunkNames.DecodeOfName | internal/server/upload_routes.go:673-680 | a chunk's own upload reads its start offset back from the name it was written under |
| ChunkNames.ChunkNameInjective | internal/server/upload_routes.go:537-539 | for underscore-free identifiers the file name determines identifier, start and end: distinct chunks never share a file |
| ChunkNames.PrefixSelectsOwnChunks | internal/server/upload_routes.go:657-672 | the assembler's prefix filter takes a chunk if and only if it belongs to its upload |
| ChunkNames.WorkerSelectsPrefixes | web/src/offload/partial.ts:70-72 | the worker's filter takes another upload's chunk if and only if its own identifier is a prefix of the other |
| ChunkNames.EqualLengthSelectsOwnChunks | web/src/offload/partial.ts:70-72 | among identifiers of equal length it takes exactly its own upload's chunks |
| ChunkNames.WorkerSelectsOwnChunks | web/src/server/routes/api/upload/partial.ts:25-32 | so for the identifiers the server issues, all of eight characters, the worker's filter selects what the assembler's does: one upload's chunks |
| FileNames.SanitizeFilename | internal/upload/filename.go:124-156 | the loops compute base name, squeezed white space and trimmed ends, in that order |
| FileNames.SanitizedFixpoints | internal/upload/filename.go:117-156 | results are clean single segments; the fixpoints are exactly the clean names; sanitising twice changes nothing more |
| FileNames.SqueezeKeepsLetters | internal/upload/filename.go:131-150 | all characters but separators, control characters and white space are kept, in order |
| FileNames.LastSegmentStays | internal/upload/filename.go:124-130 | a path whose last segment is clean becomes that segment |
| Ranges.ContentRangeReadsBack | internal/upload/headers.go:260-298 | every chunk range a client can send is parsed to the numbers meant |
| ChunkAssembly.SortedArrangementUnique | internal/server/upload_routes.go:685 | with distinct starts there is only one sorted arrangement, so the listing order does not matter |
| ChunkAssembly.SortByStart | internal/server/upload_routes.go:685 | the result is sorted by numeric start and a permutation of the input |
| ChunkAssembly.JoinedIsContent | internal/server/upload_routes.go:693-710 | concatenating the received chunks in offset order gives the original file if and only if every chunk carrying bytes was received |
| ChunkAssembly.OrderIsReceived | internal/server/upload_routes.go:659-685 | listing, decoding and sorting yields exactly the received chunks of this upload in offset order |
| ChunkAssembly.CombineAtOffsets | web/src/offload/partial.ts:98-118 | the worker's loop writes every chunk at its own start offset |
| ChunkAssembly.OffsetWritingRebuilds | web/src/offload/partial.ts:74-118 | slices that cover a file rebuild it when written at their offsets, in any order, with repeats |
| ChunkAssembly.OffsetFormRefinesConcatenation | web/src/offload/partial.ts:98-118 | for every arrangement of a complete set of chunks the offset-writing form gives the file that sorting and concatenating gives |
| ChunkUpload.TempDirectory.GatherChunks | internal/server/upload_routes.go:659-684 | the gathered references are exactly the directory entries with the upload's prefix and a decodable start |
| ChunkUpload.TempDirectory.AppendAndRemove | internal/server/upload_routes.go:693-710 | the output is the concatenation in order; exactly the listed files are gone |
| ChunkUpload.TempDirectory.AssembleChunks | internal/server/upload_routes.go:653-716 | None when nothing was gathered, otherwise the sorted concatenation, with exactly those files removed |
| ChunkUpload.TempDirectory.HandlePartial | internal/server/upload_routes.go:490-565 | refuses unclean identifiers without touching the directory; stores the chunk under its name; assembles on the last chunk |
| ChunkUpload.AcceptedIff | internal/server/upload_routes.go:494-503 | accepted identifiers are exactly the nonempty ones without an underscore that are clean names |
| ChunkProtocol.LocalKeeps | internal/server/upload_routes.go:537-565 | each step of an upload's own requests keeps its progress invariant (files present, output so far) |
| ChunkProtocol.StepSeenBy | internal/server/upload_routes.go:537-565 | steps of other uploads and of unrelated files leave an upload's files and progress as they were |
| ChunkProtocol.RunKeepsInv | internal/server/upload_routes.go:490-716 | the progress invariant of all uploads holds in every state of every interleaving |
| ChunkProtocol.AssemblyCorrect | internal/server/upload_routes.go:560-716 | in every run a finished assembly has removed all its chunk files, and its result is the original file if and only if every chunk carrying bytes had arrived; it fails only if none had |
| ChunkProtocol.OthersUntouched | internal/server/upload_routes.go:693-710 | no step of one upload changes another upload's chunk files |
| ChunkProtocol.LastChunkLast | internal/server/upload_routes.go:555-561 | when the last-chunk request lists after all chunks have arrived, the assembly cannot fail, and once done it has the original file, whatever the order, the retries and the interleaving |
| ChunkProtocol.AssemblyFinishes | internal/server/upload_routes.go:693-716 | an upload that is assembling is done after exactly one own step for each chunk not yet appended and one more, at most Count() + 1 in all; until then it can always take one, whatever the others do |
| ChunkProtocol.SequentialAssembly | internal/server/upload_routes.go:656-716 | what the sequential handler computes over a directory holding some chunks is what the protocol computes |
| JpegStrip.PrintOfParse | internal/media/gps.go:98-161 | reading a JPEG into items and a rest accounts for every byte: printing gives the input back |
| JpegStrip.ParseOfPrint | internal/media/gps.go:98-161 | printing well-formed items before a scan reads back as the same items |
| JpegStrip.StripExifAPP1 | internal/media/gps.go:89-169 | the one-index walk computes "parse, drop the Exif APP1 segments, print", including every refusal |
| JpegStrip.SurvivorsInOrder | internal/media/gps.go:117-160 | up to the scan all other items survive byte for byte in order, before the same scan; removed tells whether there was an Exif segment |
| JpegStrip.Conservation | internal/media/gps.go:154-168 | output length plus removed lengths equals the input length if and only if the walk reached SOS or EOI or no stray byte was left; at most one byte is ever lost |
| JpegStrip.StripTwice | internal/media/gps.go:89-169 | stripping the output again removes nothing, and is the identity on pictures that reach their scan |
| JpegStrip.StrayByteIsLost | internal/media/gps.go:99-168 | the one-byte tail that is lost |
| JpegStrip.ExifSegmentGoes | internal/media/gps.go:153-179 | in bytes: for every payload that fits the length field, a first APP1 segment that begins with "Exif" and two zeros goes, and removal is reported |
| JpegStrip.OtherSegmentStays | internal/media/gps.go:139-161 | in bytes: a first segment with another marker or another beginning stays |
| JpegStrip.ShortMarkersStay | internal/media/gps.go:105-137 | TEM, RST0 to RST7 and a fill byte stay, without a length field |
| JpegStrip.NoExifLeft | internal/media/gps.go:153-179 | nothing read in the output is an APP1 segment that begins with those six bytes |
| JpegStrip.Refusals | internal/media/gps.go:89-151 | what is refused: no start marker, no FF where a marker should be, fill bytes at the end, a missing, too small or too large length field |
| GpsErase.LocateGpsTagOffset | web/src/lib/gps/index.ts:40-54 | returns the value of the first entry with the GPS tag, type 4 and count 1; throws exactly when an entry before it runs past the end |
| GpsErase.RemoveGpsEntries | web/src/lib/gps/index.ts:21-29 | zeroes the 12-byte entries of one directory in the array, clipped to the buffer |
| GpsErase.RemoveGps | web/src/lib/gps/index.ts:80-144 | the in-place code over an array computes the specification for PNG, JPEG and TIFF, outcome and bytes |
| GpsErase.WalkPng | web/src/lib/gps/index.ts:94-112 | the PNG chunk walk always advances until IEND or a read out of range, with the bytes erased on the way |
| GpsErase.ErasesExactly | web/src/lib/gps/index.ts:21-79 | for JPEG and TIFF the length stays and exactly the entries of the located directory become zero; in every other outcome nothing changes |
| GpsErase.TiffErased | web/src/lib/gps/index.ts:131-137 | in bytes, for either byte order: the n entries of the directory that the first GPS pointer names become zero, and nothing else changes |
| GpsErase.JpegErased | web/src/lib/gps/index.ts:113-130 | the same for a JPEG file that begins with its Exif segment, or with a JFIF segment of any size before it |
| GpsErase.PngErasesExactly | web/src/lib/gps/index.ts:94-112 | a PNG file has a list of chunks that the walk passes; the length stays and exactly the entries of the directories that its eXIf chunks name become zero; the walk ends at IEND, reporting whether the last eXIf chunk had a GPS pointer, or throws where something cannot be read |
| GpsErase.FullWalkUnique | web/src/lib/gps/index.ts:94-112 | the bytes of the file determine that list |
| GpsErase.PngSavedIff | web/src/lib/gps/index.ts:139-143 | a PNG file on disk gets what was erased if and only if nothing but zeros was, or the walk reaches IEND and the last eXIf chunk has a GPS pointer |
| GpsErase.OtherFormatsSave | web/src/lib/gps/index.ts:113-143 | a file in another format always gets what was erased |
| GpsErase.EarlierErasureUnreported | web/src/lib/gps/index.ts:103-106 | a PNG file with two eXIf chunks, the first with a GPS pointer and the second without, whose walk reaches IEND, stays on disk as it was |
| GpsErase.ErasedThenThrown | web/src/lib/gps/index.ts:99-101 | so does one that ends after an eXIf chunk with a GPS pointer, because reading on throws |
| GpsErase.ErasingTwice | web/src/lib/gps/index.ts:113-135 | for JPEG and TIFF: if the erased entries overlap nothing that was read to find them, erasing again changes nothing |
| GpsErase.PngErasingTwice | web/src/lib/gps/index.ts:94-112 | for PNG: if no erased entry overlaps anything that was read to pass a chunk, erasing again changes nothing and has the same outcome |
| FolderGraph.DescentEndsUnlessOnCycle | web/src/lib/folderHierarchy.ts:17-30 | an unguarded descent from a folder is bounded if and only if the folder is on no cycle |
| FolderHierarchy.HierarchyBuilder.FillBuckets | web/src/lib/folderHierarchy.ts:33-42 | every unexcluded folder is in the bucket of its parent, once, and buckets hold nothing else |
| FolderHierarchy.HierarchyBuilder.SortBuckets | web/src/lib/folderHierarchy.ts:44-46 | all buckets become sorted by name, with the same members |
| FolderHierarchy.HierarchyBuilder.Traverse | web/src/lib/folderHierarchy.ts:50-63 | appends the entry of a folder and of everything below it, with depths and paths of their chains |
| FolderHierarchy.WalkVisits | web/src/lib/folderHierarchy.ts:50-68 | the traversal visits a chain if and only if it leads from the current one through one of the children |
| FolderHierarchy.ChainUnique | web/src/lib/folderHierarchy.ts:32-71 | a folder has at most one chain of shown folders from a root |
| FolderHierarchy.BuildFolderHierarchy | web/src/lib/folderHierarchy.ts:32-71 | for distinct ids and any parent links: one entry for each folder whose unexcluded chain reaches a root, each once; a root folder at depth 0 with its name as path, every other one later than its parent, one level deeper, with " / " and its name behind the parent's path; what is below a folder follows it directly, siblings in name order |
| FolderHierarchy.GetDescendantIds | web/src/lib/folderHierarchy.ts:17-30 | for a folder on no cycle: exactly the ids below it |
| FolderTree.ExpFolderTree | internal/server/export_routes.go:368-407 | on any links, cycles included: the owned folders reachable from the root, each once, root first, in nondecreasing shortest distance |
| FolderTree.DistancesExact | internal/server/export_routes.go:375-405 | the levels of a finished search are the shortest distances |
| FolderTree.ListedExactly | internal/server/export_routes.go:375-405 | a finished search has listed exactly what is reachable |
| FolderDelete.FolderStore.DeleteFolderTree | internal/server/user_routes.go:1725-1755 | removes exactly the subtree's folders and, with deleteFiles, exactly the files in it, unfiling them otherwise; the log of DELETE statements grows by exactly those folders, once each, every one after its children |
| FolderDelete.FolderStore.CollectFolderFileNames | internal/server/user_routes.go:1682-1723 | the names gathered are those of the files in the subtree, one per file row |
| FolderDelete.TopGoes | internal/server/user_routes.go:1745-1753 | with the children's subtrees gone, the last two statements finish the subtree and touch nothing else, foreign keys included |
| FolderDelete.OrderJoin | internal/server/user_routes.go:1740-1744 | the orders logged for the subtrees of different children, one after the other, are a children-first order of their union |
| FolderActions.UserDeleteFolder | internal/server/user_routes.go:798-879 | folders and files after each childrenAction; only an owned folder is deleted; the stored objects removed are those of exactly the deleted file rows |
| FolderActions.FolderFate | internal/server/user_routes.go:845-879 | for each folder: gone exactly when at or below the deleted one, in a cascade; otherwise only the deleted one is, and its children go to the target or become root folders |
| FolderActions.FileFate | internal/server/user_routes.go:845-879 | for each file: deleted, unfiled, moved to the target or left as it is, by its folder and the action |
| FolderActions.MoveKeepsForest | internal/server/user_routes.go:850-854 | moving the children of a deleted folder to a target keeps a forest if and only if the target is none, the deleted folder itself, or not below it |
| FolderActions.MoveMakesCycle | internal/server/user_routes.go:850-854 | three folders in a row: deleting the first with the last as target leaves the other two on a cycle |
| ZipNames.NameCache.ExpDedupeName | internal/server/export_routes.go:76-96 | ends for every map, with a name not given out before; with honest counters it is the first free alternative |
| ZipNames.TakenIsBounded | internal/server/export_routes.go:88-95 | the pigeonhole: no more alternatives can be taken than there are names |
| ZipNames.CandidateInjective | internal/server/export_routes.go:86-90 | different counters give different alternatives of a name |
| ZipNames.ExtIs | internal/server/export_routes.go:84-85 | the extension begins at the last dot of the last path segment, and is empty without one |
| ZipNames.RenameExample | internal/server/export_routes.go:77-96 | the number of a rename stands before the extension |
| ZipNames.HonestAfterRename | internal/server/export_routes.go:88-95 | a rename keeps all counters honest and agrees with the search from 1 |
| ZipNames.FirstFreeIsUnique | internal/server/export_routes.go:78-96 | the cache-free search determines the name |
| ZipNames.EntryNames | internal/server/export_routes.go:101-116 | over an archive all entry names differ, and each is what a search without a cache gives |
| ZipNames.FreeNameIsKept | internal/server/export_routes.go:80-83 | a file gets exactly the name it asks for if and only if no earlier entry has it |
| ZipNames.FirstAskerMayMiss | internal/server/export_routes.go:76-96 | the first file to ask for a name need not get it: a, a, "a (1)" |
| ZipCollector.Collector.SactCollectZipFiles | internal/server/server_actions_routes.go:1172-1219 | the depth-capped recursion appends the entries of its places in order |
| ZipCollector.CollectsEveryPlace | internal/server/server_actions_routes.go:1172-1219 | a file is collected at a place if and only if a chain of at most 32 open folders leads there, cycles or not |
| ZipCollector.PlacesOnce | internal/server/server_actions_routes.go:1172-1219 | no place is collected twice |
| ZipCollector.PrefixDeterminesSegments | internal/server/server_actions_routes.go:1212-1218 | the directory path in the archive determines the directory names on the way |
| ZipCollector.PathIsChain | internal/server/server_actions_routes.go:1212-1218 | a path is read back as the directory names of the folders that lead to it, from the top down |
| ZipCollector.SegmentIs | internal/server/server_actions_routes.go:1213-1216 | a directory name is "folder" for a blank name, else the name with quotes, backslashes, slashes and control characters replaced |
| ZipCollector.PlacesInOrder | internal/server/server_actions_routes.go:1178-1219 | files come before subfolders, both in the order of their queries, at every level |
| ZipCollector.PublicFolderZip | internal/server/server_actions_routes.go:1133-1158 | the download collects exactly those places, once each and in that order; each file asks for its path followed by its original name if that is not blank, else its stored name, and its entry is the first free alternative; all entries differ |
| ThumbnailRun.StepKeepsInv | internal/thumbnails/thumbnails.go:199-248 | every step of the loop, of a goroutine or of a cancellation keeps slots, wait group, mutex and counters right |
| ThumbnailRun.Bounded | internal/thumbnails/thumbnails.go:199-248 | in every interleaving at most max(1, threads) generators run, and no target is started twice |
| ThumbnailRun.ReturnsTheCount | internal/thumbnails/thumbnails.go:199-248 | on return no generator runs, the result is the number of steps of the run in which a generator finished with a thumbnail, and without cancellation every target was started; with it, a prefix |
| ThumbnailRun.AlwaysReturns | internal/thumbnails/thumbnails.go:199-248 | no run is longer than 13 n + 4 steps and none that has not returned is stuck |
| ThumbnailRun.AtMostOneMore | internal/thumbnails/thumbnails.go:210-223 | after a cancellation at most one more target gets a goroutine |
| ThumbnailRun.StopsIffUncommitted | internal/thumbnails/thumbnails.go:210-225 | in a cancelled state of a run no continuation hands out a further target if and only if the loop is at its check, waiting or returned |
| ThumbnailRun.OneMoreCanHappen | internal/thumbnails/thumbnails.go:216-225 | and that one can: a run of five steps |
| ThumbnailPool.SplitBatches | web/src/lib/tasks/thumbnailPool.ts:85-88 | id number j goes to batch j mod n at place j div n |
| ThumbnailPool.DealtEvenly | web/src/lib/tasks/thumbnailPool.ts:79-95 | the batches partition the deduplicated ids and differ in size by one at most; the nonempty ones come first |
| ThumbnailPool.UniqueIs | web/src/lib/tasks/thumbnailPool.ts:79-80 | deduplication keeps each nonempty id once |
| ThumbnailPool.UniqueInOrder | web/src/lib/tasks/thumbnailPool.ts:79-80 | and in the order of first occurrences |
| ThumbnailPool.ThumbnailPool.DispatchIds | web/src/lib/tasks/thumbnailPool.ts:78-98 | clears the timer, fills an empty pool with max(1, numThreads) new workers, deals the ids, and posts exactly the nonempty batches, batch i to worker i, whose count of outstanding batches alone goes up by one; busy is then positive |
| ThumbnailPool.ThumbnailPool.OnTimer | web/src/lib/tasks/thumbnailPool.ts:105-136 | what the idle timer does to workers, counter and timers |
| ThumbnailPool.TimerAlwaysRight | web/src/lib/tasks/thumbnailPool.ts:38-136 | in every run: the workers are pairwise different; one armed timer at most, the current one; a pending timer means busy = 0; an idle pool with workers has one |
| ThumbnailPool.ExitedStaysOut | web/src/lib/tasks/thumbnailPool.ts:64-66 | an exit takes its worker and no other out of the pool, for good, and changes no count |
| ThumbnailPool.ErrorKeepsBusyIff | web/src/lib/tasks/thumbnailPool.ts:59-62 | an error event keeps busy right if and only if the worker had exactly one batch outstanding or nobody had any |
| ThumbnailPool.IdleShutdownIsSafe | web/src/lib/tasks/thumbnailPool.ts:38-136 | with such errors only, busy is always the number of outstanding batches and the timer never shuts down a worker with work |
| ThumbnailPool.IdleErrorKillsWork | web/src/lib/tasks/thumbnailPool.ts:59-62 | without that condition a run of three events drops a working worker |
| ThumbnailPool.LostBatchKeepsPoolUp | web/src/lib/tasks/thumbnailPool.ts:64-66 | as long as every error event keeps busy right, a batch whose worker is gone keeps the pool from ever shutting down |
| TimedCache.TimedCache.SetFor | web/src/lib/timedCache.ts:15-25 | replaces entry and timer of the key together |
| TimedCache.TimedCache.GetAt | web/src/lib/timedCache.ts:27-37 | returns the value before its time, and removes the entry after it |
| TimedCache.FireIsDelete | web/src/lib/timedCache.ts:21-24 | a timer that fires removes the entry it was made for, never a newer one |
| TimedCache.StepAgrees | web/src/lib/timedCache.ts:7-49 | every operation keeps one armed timer per entry and the agreement with the timer-free map |
| TimedCache.TraceAgrees | web/src/lib/timedCache.ts:7-49 | wherever due timers fire, every read of a trace gives what a map without timers gives |
| TimedCache.LongTtlForgets | web/src/lib/timedCache.ts:15-25 | every time to live beyond the timer range breaks that |
| RateLimit.RlStore.MaybePruneLocked | internal/server/ratelimit.go:170-188 | the loop evicts exactly the keys idle beyond the limit, or empties the map |
| RateLimit.RlStore.Allow | internal/server/ratelimit.go:150-166 | new state and decision of one request |
| RateLimit.RequestIs | internal/server/ratelimit.go:150-188 | when pruning is due and which keys it takes, that a request touches no other key, and that an unknown key starts with a full bucket |
| RateLimit.RatePasses | internal/server/ratelimit.go:77-87 | Max events pass at once, and then Max a second, or one for each Max-th part of the window |
| RateLimit.ShortWindowRefills | internal/server/ratelimit.go:77-87 | a window of at most the idle time refills within it, whatever the maximum |
| RateLimit.TraceSimulates | internal/server/ratelimit.go:150-188 | without a hard reset the pruned map decides every request as a map that never forgets |
| RateLimit.PruningInvisible | internal/server/ratelimit.go:150-188 | that holds for all traces if and only if an empty bucket refills within the idle time |
| RateLimit.ShortWindowInvisible | internal/server/ratelimit.go:77-87 | so it holds for every maximum when the window is at most ten minutes or absent |
| RateLimit.LongWindowShows | internal/server/ratelimit.go:77-87 | and fails for one event in 601 seconds: two requests that the pruned map lets pass, the second too early |
| RateLimit.SizeBounded | internal/server/ratelimit.go:150-188 | in all runs the map holds at most rlMaxEntries + 1 keys |
| ViewLimit.StepKeepsLimit | internal/server/serve_routes.go:225-231 | counted views plus views still to be counted stay within the limit plus K - 1 |
| ViewLimit.LimitHolds | internal/server/serve_routes.go:225-334 | in every interleaving of at most K requests the counter never passes maxViews + K - 1; for K = 1 never maxViews; the same steps are those of short URLs |
| ViewLimit.BoundIsReached | internal/server/serve_routes.go:370-388 | that bound is reached by some run, for every limit and every K |
| ViewLimit.DeletedOnlyAtLimit | internal/server/serve_routes.go:225-231 | a row is deleted only when its own counter is at the limit |
| ViewLimit.DecisionsTakeEffect | internal/server/serve_routes.go:225-231 | in every run a decision at the limit turns the request away, and with deleteOnMaxViews the row is gone for good; below the limit the request is served and the row stays |
| Ranges.PartialRangeIsInside | internal/server/serve_routes.go:257-278 | a part that is sent lies in the object and is not empty |
| Ranges.ClosedRangeReadsBack | internal/server/serve_routes.go:451-460 | first-last is clipped to the object |
| Ranges.OpenRangeReadsBack | internal/server/serve_routes.go:444-450 | first- reaches to the end of the object |
| Ranges.SuffixRangeReadsBack | internal/server/serve_routes.go:434-443 | the last n bytes, or all of them |
| Ranges.ViewCountsIff | internal/server/serve_routes.go:257-329 | for every header and size: a response counts if and only if it sends the object from byte 0, except exactly: the whole object under a header that does not begin with "bytes=0", or one of the three cases below |
| Ranges.ViewCountsFromByteZero | internal/server/serve_routes.go:323-329 | for every accepted header: counting as a view differs from starting at byte 0 exactly for a suffix that covers the object, a padded nonzero first number, or a zero not in the first place |
| Ranges.OtherUnitsUncounted | internal/server/serve_routes.go:257-277 | a range in another unit brings the whole object, uncounted |
| Ranges.OtherUnitsExample | internal/server/serve_routes.go:257-277 | "items=0-5" brings any nonempty object with status 416, uncounted |
| Ranges.EmptyObjectUncounted | internal/server/serve_routes.go:257-315 | an object without a positive size is sent like a full one for every open range from a later byte, uncounted |
| Ranges.CanonicalRangesCount | internal/server/serve_routes.go:323-329 | with canonical decimal numbers first- and first-last count exactly from byte 0, and suffixes never |
| Ranges.SuffixOfAllExample | internal/server/serve_routes.go:434-443 | the last five bytes of three are all of them and not counted |
| Ranges.PaddedNumberExample | internal/server/serve_routes.go:323-329 | bytes 07 to 10 are counted |
| Ranges.HiddenByBlank | internal/server/serve_routes.go:410-432 | any range text that begins with 0 is, with white space in front, served the same and not counted |
| Ranges.HiddenByPlus | internal/server/serve_routes.go:410-462 | any open or closed range from a number written in zeros is, with a plus sign in front, served the same and not counted |
| Durations.PrintParse | internal/server/server_routes.go:274-287 | printing and parsing a duration gives it back if and only if it is whole seconds |
| Durations.WholeReadsBack | internal/config/config.go:606-627 | a printed number of one unit is parsed to that many units |
| Durations.UnitsAre | internal/config/config.go:606-627 | a week is read as seven days, a day as 24 hours, an hour as 60 minutes, a minute as 60 seconds |
| Durations.TextsAre | internal/server/server_routes.go:274-287 | the largest unit that fits is printed, days at most: six durations |
| Settings.SrvMergeMaps | internal/server/server_routes.go:566-578 | the recursive loop merges objects key by key and replaces everything else |
| Settings.MergeCarries | internal/server/server_routes.go:566-578 | the merged value holds everything the patch sets, at every depth; and merging changes nothing if and only if that was so before |
| Settings.MergeAgain | internal/server/server_routes.go:566-578 | merging the same patch a second time changes nothing |
| Settings.MergeItself | internal/server/server_routes.go:566-578 | merging a value into itself changes nothing |
| Settings.Server.FlatSettings | internal/server/server_routes.go:297-492 | projection, overlay of the saved object, and restoring of the keys the environment decides |
| Settings.GetShows | internal/server/server_routes.go:297-492 | what GET shows under every key: the saved value, the effective setting (null for an empty text that may be null), or the fixed value |
| Settings.EnvironmentIs | internal/config/config.go:657-678 | what a variable makes of its setting: the words of a switch, a text as it is, a number, a list split at commas without blank pieces |
| Settings.SavedNumberIs | internal/config/config.go:564-578 | a saved number loses its fraction towards zero |
| Settings.SavedDigitsAre | internal/config/config.go:564-578 | a saved text is read as the number it shows |
| Settings.Server.PatchSettings | internal/server/server_routes.go:517-560 | merges, saves and rebuilds the live configuration |
| Settings.ShownReadsBack | internal/config/config.go:541-604 | every shown value is read back as itself; a duration when it is whole seconds |
| Settings.PatchOfGet | internal/server/server_routes.go:517-560 | PATCHing back what GET returned changes no effective setting, and GET then returns the same |
| Settings.PatchOfGetIff | internal/config/config.go:246-265 | for every saved object that holds if and only if all built-in durations are whole seconds |
| Settings.GetAfterPatch | internal/server/server_routes.go:464-491 | for every patched key GET shows a value that holds everything the patch sets, objects included; where the environment decides the key, the effective value |
| Settings.PatchIsLocal | internal/config/config.go:246-265 | a patch changes no setting that it does not mention and none that the environment decides |
| SettingsSchema.SavingThePageChangesNothing | internal/config/config.go:356-477 | the law for the server's own table of settings, defaults and variables |
| SetBuilder.ReplaceFirst | internal/server/user_routes.go:1941-1948 | replaces the first occurrence, or nothing |
| SetBuilder.FillSuffix | internal/server/user_routes.go:1930-1936 | the placeholders of the suffix get the next parameter numbers in order, if no other "%d" comes before the last of them |
| SetBuilder.ReadsBack | internal/server/user_routes.go:1913-1939 | reading a rendered template finds the parameters numbered in text order and gives every value its place |
| SetBuilder.UserSetBuilder.Build | internal/server/user_routes.go:1909-1939 | placeholders are $1 to $n with n arguments; read back with them, the statement is the added assignments in order followed by the trailing conditions |
| SetBuilder.StatementExample | internal/server/user_routes.go:1909-1939 | the text of an update of two columns, one by the clock, with one condition |
| SetBuilder.UserSetBuilder.IsEmpty | internal/server/user_routes.go:1899-1907 | no argument would be bound |
| Downsample.RoundedIncreases | web/src/lib/metrics.ts:64-69 | a step longer than 1 never rounds two successive multiples to the same index |
| Downsample.RoundedIsNearest | web/src/lib/metrics.ts:68 | an index is the integer nearest to its multiple of the step, the higher one of two |
| Downsample.DownsamplePoints | web/src/lib/metrics.ts:58-72 | a list longer than max becomes the points at strictly increasing indices from the first to the last, the integers nearest to the multiples of the step, exactly max of them if and only if max >= 2; a shorter one stays |

## Left out

- HTTP plumbing, sessions, cryptography, HTML, the React client, ffmpeg, image encoding, webhooks and mail: I/O or foreign calls.
- SQL, S3 and the file system: maps with atomic statements; a traversal of the folder tables runs on a fixed snapshot, and failures of single statements or files are not modelled.
- ChunkProtocol.AssemblyCorrect: a chunk file is written in one step and read, appended and removed in one step, and the steps of one upload's own requests end with its last-chunk request: a retry that arrives after the directory was listed, or a second last-chunk request at the same time, is not part of the runs.
- ChunkProtocol.LastChunkLast: the assembled temp file's own name is not in the directory map; it does not begin with the chunk prefix.
- ChunkUpload.TempDirectory.HandlePartial: multipart parsing, the size override taken from the header total, quotas and what happens to the assembled file are not modelled.
- Ranges.ViewCountsIff: expiry, passwords, the view limit and failing storage, which end a request before it sends or counts.
- Ranges.ContentRangeReadsBack: of the partial-upload headers only the range is modelled; the booleans and names are copied as they are.
- FileNames.SanitizeFilename: names are sequences of Unicode characters, so invalid UTF-8 is not modelled.
- GpsErase.RemoveGps: reading the file by path, a failing write, and the checksum of an erased PNG chunk, which the source does not update either; the returned flag is that of the last eXIf chunk, as in the source.
- JpegStrip.StripExifAPP1: replacing the file on disk by the stripped copy.
- FolderHierarchy.BuildFolderHierarchy: the order of siblings with equal names; name comparison is any total preorder.
- FolderDelete.FolderStore.DeleteFolderTree: needs a folder that is on no cycle, because the recursion does not end otherwise (FolderGraph.DescentEndsUnlessOnCycle).
- FolderActions.UserDeleteFolder: removing a single file from a folder; an unreadable body or unknown action counts as leaving the children.
- FolderTree.ExpFolderTree: loading the files of the listed folders.
- ZipNames.NameCache.ExpDedupeName: counters are unbounded integers, and skipped or unreadable files do not reach it.
- ZipCollector.Collector.SactCollectZipFiles: the two ORDER BY clauses are the order of the tables.
- ThumbnailRun.ReturnsTheCount: what one generator does inside; both its outcomes are possible at every call.
- ThumbnailPool.IdleShutdownIsSafe: explicit shutdown calls, failing postMessage calls, and the query messages.
- TimedCache.TraceAgrees: timers never fire early, the clock does not go back, times are whole milliseconds; stored undefined values are not told apart from missing ones by `has`, and are not modelled.
- RateLimit.RlStore.Allow: the library's limiter is a plain token bucket in whole units (burst events fit, linear refill, full at the start), the clock is read in the order the mutex is taken, and the window in nanoseconds does not overflow; identities and the allow list are not modelled.
- ViewLimit.LimitHolds: changing the limit or resetting the counter while requests are in flight; expiry, passwords and ranges only make a request leave or not count.
- Settings.PatchOfGet: the settings object is absent or a JSON object (not null), JSON text is written and read without loss, numbers are exact reals, and an empty list is the same as none.
- Settings.ShownReadsBack: lists in the saved object that hold other things than strings lose them, as in the source.
- Durations.PrintParse: durations other than a whole number of one unit are read by a function that is a parameter.
- SetBuilder.UserSetBuilder.Build: column names, prefix and suffix parts are the literals of the call sites: no dollar sign of their own, no "%d" before the last placeholder, and no text beginning with a digit, which would run on from a parameter number.
- Downsample.DownsamplePoints: the step is an exact fraction and Math.round is floor(x + 1/2); max is not negative.
- Quota totals, the template parser, importers, role and provider tables: not invariants of the code, without a termination measure, or easy members.
