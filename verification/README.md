# GekkoFS, modelled and proved in Dafny

GekkoFS cuts every file into chunks of a fixed power-of-two size and spreads the chunks over the
daemons of a job. Client and daemon compute the split independently. This project models both sides,
the chunk store, and the client code around them, and proves that together they behave like plain
files, directories and descriptors, or states exactly when they do not.

The main results, each over all inputs, all runs or all reachable states:

- **Striping.** For every hash, host count, offset and size, in hash and in forwarding mode, the
  effect of `forward_write` and `forward_read` is a function of what becomes of the individual RPCs and
  of the chunk tasks inside the handlers: exactly the chunks that this function names take their piece
  of the buffer (`StripedIO.ForwardWrite`) or deliver their stored bytes (`StripedRead.ForwardRead`),
  on success and on failure, and no other file changes. Over whole histories the striped file refines one sequence of bytes
  (`PlainFile.HistoryRefines`).
- **Concurrency.** In every interleaving of chunk tasks every byte is the one of the last task that
  covers it (`Runs.LastWriterWins`). Calls that write disjoint ranges do not disturb each other,
  whatever the interleaving and whatever fails (`Concurrent.ConcurrentCalls`), and successful ones end
  in the sequential result (`Concurrent.ConcurrentSuccess`).
- **Life of a file.** In every run of create, write, truncate and remove over names that share no chunk
  directory: a file exists exactly when a create of it follows its last remove (`Lifecycle.ExistsIff`);
  its size is the maximum of its last truncation length and the size steps behind it
  (`Lifecycle.SizeIs`); every byte is the one of the last task that covers it, unless the file was
  removed or cut before it since (`Lifecycle.ByteIs`); no stored byte lies beyond the size
  (`Lifecycle.StoredBelowSize`), and nothing is left of a removed file (`Lifecycle.RemovedIsGone`). A truncation keeps this exactly when it cuts
  every chunk file that reaches beyond the new length (`Lifecycle.TruncateKeepsInv`), and a set of
  names keeps it exactly when no two of them share a directory (`Lifecycle.InvIffAliasFree`).
- **Truncation.** Exactly when the contacted hosts reach all doomed chunks, exactly when the daemons
  can carry the request out, and what the file is then (`Truncate.RangeReaches`,
  `Truncate.TruncateSucceeds`, `Truncate.TruncateRefines`).
- **Paths.** The resolver, which edits one string and keeps two counters, computes a walk over a
  component stack (`PathResolve.Resolve`). For every path its answer is given without that walk: the
  path is cut at the links that are followed (`PathTrails.EveryPath`), a plain end is answered by its
  normal form (`PathTrails.AnswersPlain`), and at a name that is missing, leads nowhere or is no
  directory the rest of the path is handed back as it is (`PathTrails.AnswersGivenUp`). Working
  directory, directory descriptor and full path agree (`PathSemantics.RelativeAgrees`).
- **Descriptors, directories, metadata.** A descriptor names what the last call that concerned it gave to
  it (`OpenFileMap.NamesLast`), and none is given out twice across index wrap-around
  (`OpenFileMap.NeverGivenTwice`); directory listings survive the wire and both `getdents` packers
  (`Dirents.GetDirents`, `GetDents.CallsSeeAll`); the metadata string round-trips exactly when the size
  fits 63 bits and the target has no NUL (`Metadata.RoundTrip`).

Places where the code does less than its comments or a plain file would suggest, each with a lemma
that says exactly when:

| behaviour | lemma |
|---|---|
| a write that skips a whole chunk leaves a hole: the bytes are right, but a later read counts short | `PlainFile.WriteRefines`, `StripedRead.FullCount` |
| chunk numbers are narrowed to 32 bits: bytes 2^32 chunks apart are one cell | `Aliasing.WrappedBytes`, `Aliasing.WriteWraps` |
| `/a/b` and `/a:b` share a chunk directory | `Aliasing.OwnDirectory`, `Lifecycle.InvIffAliasFree` |
| a read of 0 bytes at offset 0 plans up to the largest 64-bit chunk id | `ChunkCalc.ZeroCountRead` |
| a truncation to `length` misses hosts unless `length <= (current - 1) mod C` | `Truncate.RangeReaches`, `Truncate.LastMissed` |
| a cut inside a chunk fails unless all contacted chunks live with that chunk | `Truncate.TruncateSucceeds` |
| a `dup2` onto the next index makes the next descriptor one that is in use | `OpenFileMap.StepKeepsInv`, `OpenFileMap.FirstHit`, `OpenFileMap.HitReachable` |
| `match_components` throws when the mount path is a proper prefix of the resolved link | `PathResolve.MatchComponents` |
| after a link to the root, resolved paths can keep a second leading slash, also internal ones | `RootLinks.DoublesExactly`, `RootLinks.InsideDoubles` |
| paths into a mount directory below `/sys` or `/proc` are never resolved | `PathSemantics.ExcludedMount` |
| a size of 2^63 or more can be written to the metadata string but not read back | `Metadata.RoundTrip` |

## Layout of the project

- `Arith`, `Bits`: multiplication, division and bit operations by recursion, with the lemmas that tie
  them to the operators.
- `ChunkCalc`, `Layout`, `Placement`, `ChunkStorage`: chunk arithmetic, the cut of a range into pieces,
  which host serves a chunk, and the chunk files.
- `FlatFile`, `Runs`: the file a user sees, and interleaved runs of chunk tasks.
- `SrvData`, `SrvRead`, `ForwardData`, `StripedIO`, `StripedRead`: daemon loops, client planner and the
  two calls end to end.
- `Concurrent`: many calls at once.
- `PlainFile`, `Vectored`, `FilePosition`: refinement of a plain file, vectored calls, file positions.
- `Truncate`, `Lifecycle`, `Aliasing`: truncation, whole runs with metadata, shared names.
- `PathNames`, `PathResolve`, `PathSemantics`, `RootLinks`, `PathTrails`: component stacks, the resolver,
  relative paths, links to the root, and the answer for every path.
- `OpenFileMap`, `Dirents`, `GetDents`, `Decimal`, `Metadata`: descriptor table, directory encodings,
  metadata string.

An RPC cannot be posted, is lost, or is handled, and then its answer reaches the client or not; an error
answer for any reason but a failed chunk counts as one that does not. A handler may meet a fault: the
bulk transfers fail from some chunk on, and any write tasks fail or are cancelled. The model takes all
this as a parameter, one outcome per target. The hash of the distributor, `lstat` and
`realpath` are parameters. Stored bytes are a value passed in and out: one map from directory name and
chunk number to bytes for each daemon, or a single one in forwarding mode, where daemons share it.

## Model

| member | source | states |
|---|---|---|
| `ChunkCalc.Log2` | include/global/chunk_calc_util.hpp:25-42 | smearing, the multiplication by the magic constant and the table give the position of the top bit of every non-zero 64-bit number |
| `ChunkCalc.Lalign` | include/global/chunk_calc_util.hpp:48-50 | the mask rounds down to a multiple of the chunk size |
| `ChunkCalc.Ralign` | include/global/chunk_calc_util.hpp:56-58 | the result is the first multiple strictly behind the offset |
| `ChunkCalc.Rpad` | include/global/chunk_calc_util.hpp:78-80 | the wrapped negation modulo the chunk size is the distance to the next multiple, 0 on one |
| `ChunkCalc.IdForOffset` | include/global/chunk_calc_util.hpp:91-98 | below 2^63 align and shift are division by the chunk size |
| `ChunkCalc.IdForOffsetIsDivision` | include/global/chunk_calc_util.hpp:91-98 | exactly which 64-bit offsets the shift form divides correctly |
| `ChunkCalc.CountForOffset` | include/global/chunk_calc_util.hpp:105-112 | the number of chunk ids between the first and the last byte |
| `ChunkCalc.ZeroCountRead` | src/client/rpc/forward_data.cpp:201-202 | the id range of a read of no bytes, with the wrap at offset 0 |
| `Layout.PieceSize` | src/client/rpc/forward_data.cpp:106-117 | a chunk less the left and right padding is the intersection of chunk and range |
| `Layout.PieceOrigin` | src/daemon/handler/srv_data.cpp:264-270 | the daemon's buffer offsets are where the intersection lies in the user buffer |
| `Layout.InnerPieceIsWhole` | src/daemon/handler/srv_data.cpp:217-226 | a chunk that is neither last nor cut on the left is transferred whole |
| `Placement.HashDeployment` | src/global/rpc/distributor.cpp:34-37 | any string hash gives a placement on the existing hosts |
| `Placement.AnyPlacement` | src/global/rpc/distributor.cpp:34-37 | every placement on the existing hosts that looks at 32 bits of the chunk number comes from a hash, and client, daemon filter and backend follow it |
| `ForwardData.PlanTargets` | src/client/rpc/forward_data.cpp:59-77 | targets are distinct and are the targets of the range, in the order of their first chunks; each has its chunks in order; start and end targets are right |
| `ForwardData.FiledIsOwned` | src/client/rpc/forward_data.cpp:59-77 | the chunks the client files under a target are those that the target's daemon picks |
| `ForwardData.TotalChunkSize` | src/client/rpc/forward_data.cpp:106-117 | the total sent to a target is the number of bytes of the range in that target's chunks |
| `ForwardData.BuildRequest` | src/client/rpc/forward_data.cpp:104-140 | the request is the one that describes the target's share of the range |
| `ForwardData.TasksFollowPlan` | src/daemon/handler/srv_data.cpp:237-314 | the chunks a daemon visits are the client's list for it, in the same order |
| `SrvData.PlaceChunk` | src/daemon/handler/srv_data.cpp:245-273 | every branch of the loop gives size and origin of the chunk's piece |
| `SrvData.PullChunks` | src/daemon/handler/srv_data.cpp:226-314 | the loop ends, at the first failed transfer or with all task slots filled; the tasks are the share's, the bulk buffer is packed without gaps, and without a failure no size is left over |
| `SrvData.CollectWrites` | src/daemon/handler/srv_data.cpp:322-345 | the sizes are summed until a task has failed, and that is an error |
| `SrvData.SrvWrite` | src/daemon/handler/srv_data.cpp:200-364 | the backend gets exactly the pieces of the share that the fault leaves alone; an error is reported exactly when one is missing, else the answer is the share's size; the sanity check never fires |
| `SrvRead.LocateChunks` | src/daemon/handler/srv_data.cpp:455-531 | the read loop finds the share's tasks with their bulk-buffer and client-buffer offsets and leaves no size over |
| `SrvRead.CollectReads` | src/daemon/handler/srv_data.cpp:535-575 | missing and empty chunks are skipped, other bytes reach the client's buffer at their origin, and the answer counts them, up to the first failed read or push |
| `SrvRead.SrvRead` | src/daemon/handler/srv_data.cpp:368-585 | the client's buffer after the pushes of the share's chunks before the fault; an error exactly when a chunk of the share is at or behind it, else the number of bytes found |
| `FlatFile.PieceEffect` | src/daemon/backend/data/chunk_storage.cpp:121-150 | one write task changes exactly the bytes of its range inside its chunk, and which bytes are stored then |
| `Runs.LastWriterWins` | src/daemon/handler/srv_data.cpp:293-314 | in every run of tasks every byte is that of the last task covering it |
| `Runs.RunStores` | src/daemon/backend/data/chunk_storage.cpp:121-150 | which bytes are stored after a run |
| `Runs.ConcurrentWrites` | src/client/rpc/forward_data.cpp:59-158 | disjoint writers in any interleaving: bytes outside keep, bytes inside are old or new, complete runs equal the sequential result |
| `Concurrent.ConcurrentCalls` | src/client/rpc/forward_data.cpp:35-192 | disjoint calls in any interleaving and with any failures: a byte is its call's exactly where the chunk took its piece, and the old one elsewhere |
| `Concurrent.ConcurrentSuccess` | src/client/rpc/forward_data.cpp:35-192 | disjoint successful calls in any interleaving leave the file of applying them one after the other |
| `StripedIO.PlanServesOnce` | src/client/rpc/forward_data.cpp:59-77 | every chunk of the range is served by exactly one target of the plan |
| `StripedIO.TotalsAddUp` | src/client/rpc/forward_data.cpp:104-117 | the targets' totals add up to the size of the range |
| `StripedIO.HandlerIsRun` | src/daemon/handler/srv_data.cpp:237-314 | a daemon's handler is the run of its tasks |
| `StripedIO.PostedTargets` | src/client/rpc/forward_data.cpp:104-158 | a target gets its RPC exactly when no chunk up to one of its own has a target that cannot be reached |
| `StripedIO.PostedTakes` | src/client/rpc/forward_data.cpp:104-158 | the tasks that run are those of the chunks whose target got its RPC and did the chunk |
| `StripedIO.RunWrote` | src/client/rpc/forward_data.cpp:104-158 | the flat file after any subset of the chunks has taken its piece |
| `StripedIO.RunKeepsOthers` | src/daemon/backend/data/chunk_storage.cpp:49-58 | no byte of a file with another chunk directory changes |
| `StripedIO.PostWrites` | src/client/rpc/forward_data.cpp:104-158 | the posting loop stops at the first target that cannot be reached; the cluster is the run of the targets tried, and the answers are theirs |
| `StripedIO.SumAnswers` | src/client/rpc/forward_data.cpp:163-191 | the sum of the answers, or -1 if one is missing |
| `StripedIO.ForwardWrite` | src/client/rpc/forward_data.cpp:35-192 | for all outcomes exactly the bytes of the range in chunks that took their piece become the buffer's, and no other file changes; the result is the size if every chunk was written and every target answered, else -1 |
| `StripedIO.WriteAt` | src/client/gkfs_functions.cpp:410-432 | the same for a pwrite at an offset; when the size step fails the result is -1 and nothing is written |
| `StripedRead.PushByte` | src/daemon/handler/srv_data.cpp:537-575 | the client's buffer, index by index, after one daemon's pushes |
| `StripedRead.PostReads` | src/client/rpc/forward_data.cpp:197-349 | the posting loop stops at the first target that cannot be reached; the buffer has what the targets tried have delivered, and the answers are theirs |
| `StripedRead.FoundAddUp` | src/client/rpc/forward_data.cpp:197-349 | what the targets find adds up to the number of stored bytes of the range |
| `StripedRead.ForwardRead` | src/client/rpc/forward_data.cpp:197-349 | for all outcomes every stored byte of a delivered chunk arrives at its index and nothing else changes; the result is the number of stored bytes if every chunk was read and every target answered, else -1 |
| `StripedRead.DenseCount` | src/client/rpc/forward_data.cpp:197-349 | in a dense file that number is what a plain file returns |
| `StripedRead.FullCount` | include/config.hpp:34 | the count is full exactly when no byte of the range is missing |
| `PlainFile.WriteRefines` | src/client/rpc/forward_data.cpp:35-192 | a successful write is pwrite on the plain file; the stored bytes follow exactly when no whole chunk is skipped |
| `PlainFile.ReadRefines` | src/client/rpc/forward_data.cpp:197-349 | a successful read is pread on the plain file, bytes and count |
| `PlainFile.HistoryRefines` | src/client/rpc/forward_data.cpp:35-349 | over every history of successful calls all reads return what the plain file returns |
| `PlainFile.ReadBack` | src/client/rpc/forward_data.cpp:35-349 | a successful write followed by a successful read of its range returns the written buffer and its size, on any file and through any forwarders |
| `PlainFile.ReadsAgree` | src/daemon/daemon.cpp:406-411 | reads through any daemons and forwarders of clusters with the same bytes give the same buffer |
| `PlainFile.ModesAgree` | src/global/rpc/distributor.cpp:84-87 | a write has the same effect in hash and forwarding mode and for any host counts and forwarders |
| `Aliasing.WrappedBytes` | src/daemon/backend/data/chunk_storage.cpp:56-58 | two positions of a file are one cell exactly when they lie alike in chunks whose numbers agree in 32 bits |
| `Aliasing.WriteWraps` | src/daemon/backend/data/chunk_storage.cpp:121-135 | a write 2^32 chunks higher overwrites the low chunk |
| `Aliasing.ColonFreeInjective` | src/daemon/backend/data/chunk_storage.cpp:49-54 | paths without colons have directories of their own |
| `Aliasing.OwnDirectory` | src/daemon/backend/data/chunk_storage.cpp:49-54 | a path shares its directory with no other exactly when it is a top-level name without a colon |
| `Truncate.TrimChunkSpace` | src/daemon/backend/data/chunk_storage.cpp:82-100 | the files below the bound are left, whatever order the directory is read in |
| `Truncate.SrvTruncate` | src/daemon/handler/srv_data.cpp:589-620 | when the handler throws, the backend after it, and no other directory of it changed |
| `Truncate.CollectHosts` | src/client/rpc/forward_data.cpp:356-365 | the contacted hosts are the targets of the coded id range |
| `Truncate.ForwardTruncate` | src/client/rpc/forward_data.cpp:351-416 | the backends of the hosts that got and handled the request are trimmed and no other, and other files keep their bytes; every contacted host gets it unless one cannot be reached; 0 exactly when every contacted host answered and could trim |
| `Truncate.ByteAfterTrim` | src/daemon/handler/srv_data.cpp:600-609 | every byte of the file after any, also incomplete, truncation |
| `Truncate.TrimKeepsOthers` | src/daemon/backend/data/chunk_storage.cpp:82-119 | a truncation leaves every byte, and every stored byte, of the other files |
| `Truncate.TruncateRefines` | src/daemon/handler/srv_data.cpp:600-609 | the file is the truncated plain file exactly when every chunk at or past the cut was cut |
| `Truncate.RangeReaches` | src/client/rpc/forward_data.cpp:358-365 | the coded id range covers all doomed chunks exactly when the new length is at most the place of the last byte in its chunk |
| `Truncate.AllContacted` | src/client/rpc/forward_data.cpp:358-365 | then, in every placement, the host of every doomed chunk is contacted |
| `Truncate.LastMissed` | src/client/rpc/forward_data.cpp:358-365 | otherwise there is a placement in which the last chunk's host is not |
| `Truncate.TruncateSucceeds` | src/daemon/backend/data/chunk_storage.cpp:82-119 | on an intact file truncation succeeds exactly on a chunk boundary or when all contacted chunks live with the cut chunk |
| `Truncate.TruncateToZero` | src/client/gkfs_functions.cpp:354-372 | truncation of an intact file to 0 succeeds and leaves the empty file |
| `Lifecycle.ForwardRemove` | src/client/rpc/forward_metadata.cpp:91-182 | the requests go out in order up to the first host that cannot be reached, and exactly the daemons that handle one drop the directory; success exactly when all answered, and then every contacted backend has dropped it; other files keep their bytes |
| `Lifecycle.RemoveContacts` | src/client/rpc/forward_metadata.cpp:95-160 | exactly who is asked: the metadata host, and for a file with data the owners of its chunks or every host |
| `Lifecycle.DropKeepsOthers` | src/daemon/backend/data/chunk_storage.cpp:60-67 | a removal leaves every byte of the other files |
| `Lifecycle.RemoveReaches` | src/client/rpc/forward_metadata.cpp:131-150 | the contacted hosts include the home of every chunk below the size |
| `Lifecycle.TasksAreSteps` | src/daemon/handler/srv_data.cpp:293-314 | any interleaving of tasks of started writes is a possible run with the effect of the striping model, and changes no metadata |
| `Lifecycle.WriteIsPossible` | src/client/gkfs_functions.cpp:410-432 | every well-formed write, in any order of its tasks, occurs in a run |
| `Lifecycle.NextKeepsInv` | src/daemon/backend/metadata/merge.cpp:111-164 | every step keeps: chunk files belong to an existing file, lie at home, are not empty, fit in a chunk and end below the size |
| `Lifecycle.TruncateKeepsInv` | src/client/gkfs_functions.cpp:354-372 | a truncation keeps this exactly when it cuts every chunk file that reaches beyond the new length |
| `Lifecycle.ContactedCuts` | src/client/rpc/forward_data.cpp:356-365 | the contacted hosts do that for length 0, and for any length in the last byte's reach when the cut chunk's backend keeps all doomed chunks |
| `Lifecycle.InvIffAliasFree` | src/daemon/backend/data/chunk_storage.cpp:49-54 | all runs over a set of names keep this exactly when no two of them share a chunk directory |
| `Lifecycle.ColonFreeNames` | src/daemon/backend/data/chunk_storage.cpp:49-54 | paths without colons are such a set |
| `Lifecycle.RunKeepsInv` | src/daemon/ops/metadentry.cpp:67-111 | the same in every reachable state |
| `Lifecycle.StoredBelowSize` | src/client/gkfs_functions.cpp:422-427 | in every reachable state every stored byte lies below the metadata size |
| `Lifecycle.NothingLeft` | src/client/gkfs_functions.cpp:208-215 | in every reachable state no host keeps a chunk of a path without metadata |
| `Lifecycle.ExistsIff` | src/daemon/ops/metadentry.cpp:67-111 | in every run a file exists exactly when a create of it follows its last remove |
| `Lifecycle.RemovedIsGone` | src/daemon/ops/metadentry.cpp:106-111 | in every run a file that was not created since its last remove has no metadata and no chunk on any host |
| `Lifecycle.RemoveEnds` | src/daemon/ops/metadentry.cpp:106-111 | in particular after a run that ends in its remove |
| `Lifecycle.SizeIs` | src/daemon/backend/metadata/merge.cpp:111-164 | in every run the size is the maximum of the last truncation length, or 0, and the ends of the size steps behind it |
| `Lifecycle.ByteIs` | src/daemon/handler/srv_data.cpp:293-314 | in every run a byte is that of the last task that covers it, and 0 without one or when the file was removed or cut before it since |
| `Lifecycle.ReachablePlaced` | src/daemon/handler/srv_data.cpp:237-242 | in every reachable state chunk files lie only on the daemon that serves them |
| `Vectored.Pwritev` | src/client/gkfs_functions.cpp:457-485 | on any file, the buffers written are one pwrite of their concatenation, whose length is returned, or -1; a failed inner write ends the call and leaves exactly the chunks that took their piece; no other file changes |
| `Vectored.PwriteTwice` | src/client/gkfs_functions.cpp:457-485 | consecutive writes are one write |
| `Vectored.Preadv` | src/client/gkfs_functions.cpp:531-559 | without failure the buffers get one contiguous read, stopping at the end of the file; -1 for nothing read; a failed inner read ends the call and its buffer has exactly the delivered chunks |
| `Vectored.PreadAllIsOne` | src/client/gkfs_functions.cpp:531-559 | reading buffer by buffer is one read into the concatenation |
| `FilePosition.GkfsRead` | src/client/gkfs_functions.cpp:520-529 | a read at the position, which moves by the bytes read; a failed one delivers what was delivered and does not move it |
| `FilePosition.GkfsWrite` | src/client/gkfs_functions.cpp:444-455 | a write at the position, which moves by the buffer size on success only; the file after a failed one |
| `FilePosition.ReadTwice` | src/client/open_file_map.cpp:152-162 | reads through descriptors of one open file are consecutive |
| `OpenFileMap.FileMap.constructor` | src/client/open_file_map.cpp:50-52 | the empty table |
| `OpenFileMap.FileMap.Generate` | src/client/open_file_map.cpp:188-202 | the next index, with the wrap that sets the flag |
| `OpenFileMap.FileMap.SafeGenerate` | src/client/open_file_map.cpp:112-129 | the search ends whenever an index of the second round is free, and gives the next free one in cyclic order |
| `OpenFileMap.FileMap.Add` | src/client/open_file_map.cpp:131-136 | the step of the table for add |
| `OpenFileMap.FileMap.Remove` | src/client/open_file_map.cpp:138-150 | the entry goes, and the flag is cleared only with the last one |
| `OpenFileMap.FileMap.Dup` | src/client/open_file_map.cpp:152-162 | a new descriptor of the same open file, or -1 |
| `OpenFileMap.FileMap.Dup2` | src/client/open_file_map.cpp:164-182 | the given descriptor names the open file and all others keep theirs, with the flag set for indices above the next one |
| `OpenFileMap.StepKeepsInv` | src/client/open_file_map.cpp:112-202 | the invariant behind the lazy check is kept by every call except a dup2 onto the next index, which breaks it |
| `OpenFileMap.GivesFresh` | src/client/open_file_map.cpp:112-162 | with the invariant a descriptor given out was not in use and then names its file |
| `OpenFileMap.StepNames` | src/client/open_file_map.cpp:131-182 | after dup2 the new descriptor names the old one's file, whatever it named before; a closed one names nothing; all others keep their file |
| `OpenFileMap.NamesLast` | src/client/open_file_map.cpp:131-182 | in every run, until a dup2 hits the next index, a descriptor names what the last call that concerned it gave to it |
| `OpenFileMap.FirstHit` | src/client/open_file_map.cpp:178-180 | in every run, after the first such dup2 the next add or dup gives out a descriptor in use and its file is not entered |
| `OpenFileMap.HitReachable` | src/client/open_file_map.cpp:164-182 | open, dup2 onto the next descriptor, then open or dup is such a run |
| `OpenFileMap.NeverGivenTwice` | src/client/open_file_map.cpp:112-202 | in every run, until such a dup2, every descriptor given out was not in use and names its file |
| `PathNames.ComponentsConcat` | src/global/path_util.cpp:58-67 | the components of a prefixed path are those of the prefix and of the path |
| `PathNames.ScanPrinted` | src/global/path_util.cpp:69-89 | scanning a printed component stack gives it back |
| `PathResolve.MatchComponents` | src/client/path.cpp:52-78 | the common prefix with the mount path and the number of components; it throws exactly when the mount path is a proper prefix |
| `PathResolve.RollBack` | src/client/path.cpp:141-158 | string, last slash and both counters after `..` |
| `PathResolve.EnterName` | src/client/path.cpp:160-206 | string and counters after a name, with every early return of the file system checks |
| `PathResolve.Resolve` | src/client/path.cpp:92-219 | the in-place edits and counters compute the walk over a component stack, links and failures included, and the excluded prefixes |
| `PathSemantics.ResolvePlain` | src/client/path.cpp:92-219 | without links and off the excluded prefixes: internal exactly when the mount components prefix the normal form, which is the output without the mount path |
| `PathTrails.EveryPath` | src/client/path.cpp:118-206 | every absolute path is a sequence of stretches through directories to followed links, and a rest of one of the four kinds below |
| `PathTrails.AnswersPlain` | src/client/path.cpp:118-219 | a rest through directories, or inside the mount directory: the answer is the normal form behind the last link |
| `PathTrails.AnswersGivenUp` | src/client/path.cpp:171-200 | a name outside that is missing, is an unresolvable link, or is no directory with more behind it: external, the normal form up to that name and the untouched rest of the path |
| `PathTrails.AnswersLast` | src/client/path.cpp:178-205 | a file or an unfollowed link as the last name: the normal form |
| `PathTrails.AnswersThrow` | src/client/path.cpp:52-78 | a followed link to a place below the mount directory: the exception |
| `PathTrails.LinkIsPath` | src/client/path.cpp:179-198 | a path that leads through links to a directory is answered like the printed directory and the rest |
| `PathTrails.WalkBlind` | src/client/path.cpp:182-198 | behind a link to the root the answer is the one from the root, but for the doubled slash |
| `RootLinks.DoublesExactly` | src/client/path.cpp:182-219 | the answer starts with two slashes exactly when the walk follows a link to the root and then follows no other, does not climb out with `..` and ends below it |
| `RootLinks.OutsideDoubles` | src/client/path.cpp:182-219 | with such a link `/c`, the path `/c/d` is answered as `//d` |
| `RootLinks.InsideDoubles` | src/client/path.cpp:182-219 | with the mount directory `/m`, the path `/c/m/x` is the internal path `//x` |
| `PathSemantics.ExcludedMount` | src/client/path.cpp:99-105 | paths into the mount directory are excluded exactly when its first component is `sys` or `proc` |
| `PathSemantics.RelativeAgrees` | src/client/preload_context.cpp:131-173 | for a directory that resolves to an internal one, working directory, directory descriptor and full path give the same answer for every mix of names, `.` and `..` |
| `PathSemantics.CwdPrints` | src/client/hooks.cpp:579-585 | the working directory kept for an internal path is its full path |
| `PathSemantics.SplitPath` | src/global/path_util.cpp:76-89 | for every non-empty path the tokens have no slash and print back as the path, with its trailing slash |
| `PathSemantics.SplitCanonical` | src/global/path_util.cpp:69-89 | there is one such splitting, and for a canonical path it is the component stack |
| `Dirents.TotalSize` | src/daemon/handler/srv_metadata.cpp:327-332 | the computed size is that of the packed listing |
| `Dirents.Pack` | src/daemon/handler/srv_metadata.cpp:340-353 | the buffer is the flags followed by the terminated names |
| `Dirents.Unpack` | src/client/rpc/forward_metadata.cpp:441-459 | the parser recovers the packed listing and stays inside its region |
| `Dirents.DeliverStep` | src/client/rpc/forward_metadata.cpp:375-388 | a push fills its own region of the shared buffer and leaves the others |
| `Dirents.GetDirents` | src/client/rpc/forward_metadata.cpp:355-461 | whatever order the daemons answer in, the client gets all listings, unless one does not fit its share |
| `GetDents.AlignIsMask` | src/client/gkfs_functions.cpp:649-650 | the kernel macro rounds up to a multiple of 8 |
| `GetDents.WrittenFields` | src/client/gkfs_functions.cpp:655-667 | the stores of one record do not overwrite each other; the name never reaches the type byte |
| `GetDents.WriteFields` | src/client/gkfs_functions.cpp:655-667 | a record in the user's buffer, with everything before it kept |
| `GetDents.GetDents` | src/client/gkfs_functions.cpp:618-736 | the records of the entries that fit, the new position, and the results 0 and -1, for both record forms and names of any length |
| `GetDents.FittingIsPart` | src/client/gkfs_functions.cpp:638-669 | the entries that fit are those up to the new position |
| `GetDents.WalkSees` | src/client/gkfs_functions.cpp:636-677 | walking a buffer by record length gives the packed entries in order with name, type and offset |
| `GetDents.CallSees` | src/client/gkfs_functions.cpp:695-735 | walking the filled part of a call's buffer shows the entries from its position to the new one; 0 exactly at the end |
| `GetDents.CallsSeeAll` | src/client/gkfs_functions.cpp:618-736 | for both record forms at their literal offsets, over any calls, walking the filled buffers shows the first entries, each once and in order; all of them once a call has returned 0, or after enough calls whose buffers fit the next record |
| `GetDents.EntrySeen` | src/client/gkfs_functions.cpp:655-725 | entry by entry a program sees the name, type 4 exactly for a directory and 8 exactly for a file, and the next position |
| `GetDents.CallIsFull` | src/client/gkfs_functions.cpp:638-677 | a call stops only at the end or when the next record does not fit the room left; -1 exactly when the first one does not fit |
| `GetDents.SizeByNumbers` | src/client/gkfs_functions.cpp:649-650 | a record has 20 or 21 bytes and the name, rounded up to a multiple of 8 |
| `Metadata.Serialize` | src/global/metadata.cpp:125-158 | the string of the enabled fields |
| `Metadata.TextByExample` | src/global/metadata.cpp:125-158 | the order of the fields and the separators |
| `Metadata.Deserialize` | src/global/metadata.cpp:63-123 | of a string that serialize wrote, the parser gives the enabled fields back and uses it up, exactly when the size fits 63 bits and the target has no NUL |
| `Metadata.RoundTrip` | src/global/metadata.cpp:63-158 | the same of the two string functions, for all switches |
| `Metadata.Reload` | src/global/metadata.cpp:63-158 | storing an entry and loading it gives the enabled fields back exactly then |
| `Metadata.LinkRoundTrip` | src/global/metadata.cpp:108-123 | a symbolic link, mode 0120777, with any NUL-free target is loaded with it |
| `Metadata.FileTarget` | src/global/metadata.cpp:108-123 | a regular file with a target cannot be loaded |

## Left out

- Transport (Margo, Mercury, Hermes), Argobots tasks and their pools: an RPC or a chunk task is one step.
- SrvData.SrvWrite: a chunk file write that stores fewer bytes than asked without an error, which the source counts as it is, is not modelled; a task has its whole effect or none.
- Append mode: `gkfs_open` rejects it, so the size step answers with the end of the write or fails.
- RocksDB: the metadata store is a map with the merge rules of create, maximum and remove.
- Symbolic links inside the file system, `get_metadata` link following and renaming.
- Concurrent remove or truncate against writes in flight; the source documents it as unresolved.
- Offsets and sizes at which 64-bit or 32-bit chunk numbers wrap: the file lemmas ask for ranges below 2^63 and below 2^32 chunks, and `Aliasing` says what happens beyond.
- Lifecycle.NextKeepsInv: in runs a removal reaches all the hosts it contacts, because a lost request would leave chunks behind until the next one; `Lifecycle.ForwardRemove` says what a lost request leaves.
- Truncation up to the last 32-bit chunk number, where the client's loop variable and the daemon's incremented chunk number wrap.
- `zero_buffer_before_read`, which is off: bytes of holes keep what the buffer held.
- Interception of system calls, descriptor protection, start-up, host files, the forwarding-map thread and logging.
- `absolute_to_relative` and `dirname`: they would only add easy members.
- Metadata.Deserialize: fields that are switched off read as 0.
- GetDents.GetDents: names contain no NUL, because the client builds them from C strings.
- GetDents.CallSees: a program can walk the records only if their lengths fit 16 bits, so names have at most 65280 bytes; file systems allow 255.
