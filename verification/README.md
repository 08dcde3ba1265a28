# Matchlock: models and proofs

Dafny models of the algorithms and state machines inside Matchlock, and proofs of what they are
for. `dafny verify dfyconfig.toml` checks everything.

| file | models |
|---|---|
| `Seccomp.dfy` | the generator of the sandbox's BPF filter, against a BPF interpreter |
| `Glob.dfy` | host patterns: the greedy wildcard matcher and the shortcuts in front of it |
| `BlobNames.dfy`, `ImageStore.dfy` | blob file names, image and layer rows, reference counts, blob collection |
| `ImageSharing.dfy` | saves and collections of several processes on one image cache |
| `DnsForwarder.dfy` | the shutdown protocol of the DNS forwarder, as interleaved atomic steps |
| `SseTransform.dfy` | body replacement in server-sent-event streams (section 9.2 of the WHATWG HTML Living Standard) |
| `MemoryFile.dfy`, `MemoryDirectory.dfy` | files and directories of the in-memory file system |
| `MountRouter.dfy` | mount resolution and merged directory listings |
| `Migrations.dfy` | schema migrations with backup and restore |
| `ConnectionPool.dfy` | the pool of idle upstream connections |
| `LifecyclePhases.dfy`, `LifecycleVersions.dfy`, `LifecycleStore.dfy`, `Reconcile.dfy` | VM phases, versioned records under concurrent stores, the reconciler |
| `LifecycleUpdates.dfy` | several stores that load, change and save records of one VM, and which histories follow the phase graph |
| `Subnets.dfy`, `SubnetSharing.dfy` | subnet allocation, by one allocator and by several on one database |
| `Framing.dfy` | length-prefixed messages |
| `Sequences.dfy`, `Bytes.dfy`, `Counting.dfy`, `Sorting.dfy`, `Wrappers.dfy` | library functions with their contracts, counting arguments, sorting, optional values |

I/O results, clocks, map iteration order and faults are parameters or arbitrary choices. Methods
with loops carry the source's loops; the functions their contracts name are what the lemmas are
about.

## Where the code does less than one would think

- The seccomp filter is right up to 254 blocked numbers. With 255 the architecture check no longer
  skips the tests; from 256 on some test jumps nowhere (`Seccomp.CorrectExactlyUpTo254`). The
  lists in use have five entries.
- A digest whose algorithm part has an underscore is read back from its file name as another
  digest (`ImageStore.UnderscoreIsMisread`). Unless a layer row or a rootfs path happens to name that
  other digest, the collector removes the blob although a layer row names it
  (`ImageStore.MisreadDigestIsLost`): a store whose only image has such a digest loads it before any
  complete collection and never after (`ImageStore.MisreadImageIsLost`; `a_b:c` is one,
  `ImageStore.UnderscoreExample`). `ImageStore.SurvivesExactly` says for every image when it survives.
- A collection that has looked for references before another process commits a save goes on to remove the
  files of the new image: the save succeeds, the image loads, and then it does not
  (`ImageSharing.CollectedWhileSaving`). `ImageSharing.SurvivesSharingExactly` says when an image can be
  lost, `ImageSharing.CommitIsSafeExactly` what has to hold at the commit.
- A replacement text with a line feed breaks the line structure of an event stream
  (`SseTransform.FramingIsKeptExactly`, `SseTransform.SingleReplacementFraming`). For lists no condition on
  the single replacements decides: the order does (`SseTransform.OrderDecidesFraming`).
- The standard also ends lines at a lone carriage return, the transformer only at line feeds: a replacement
  text with a carriage return breaks a line as well (`SseTransform.CarriageReturnBreaksLine`), and nothing is
  replaced in a data line behind one (`SseTransform.LoneCarriageReturnHidesData`).
- After an orderly close in the middle of a message `readFull` never returns: it reads nothing, without an
  error, for ever (`Framing.ReadFull`, `Framing.ReadMessage`).
- `WriteMessage` does not look at how much of a buffer a write call took, and a payload of 2^32
  bytes or more is sent under a wrong length (`Framing.Conn.Write`, `Framing.WriteMessage`,
  `Framing.RoundTripExactly`).
- When a restore fails, the backup is deleted all the same, and what the file held is lost unless the
  failed restore left it or the deletion failed too (`Migrations.Database.Migrate` says exactly when).
- Two stores that update one VM at the same time can record phases that do not follow the phase graph.
  Whatever is saved behind a loaded record leaves the graph exactly if the last phase does not permit it;
  all changes are safe exactly if the phase loaded is the last one, or one of the two is cleaning and the
  other cleanup_failed (`LifecycleUpdates.StaleFollowsExactly`, `LifecycleUpdates.HarmlessRunsFollow`,
  with a run for every harmful pair in `LifecycleUpdates.StaleUpdateLeavesGraph`). Versions stay
  contiguous even then.
- Two allocators that look for a free subnet at the same time find the same one, and the slower one fails;
  others are free then unless the first one took the last (`SubnetSharing.SimultaneousScansCollide`). No
  address is ever shared.
- A recorded phase that is not one of the twelve stays as it is through reconciliation
  (`Reconcile.FinalPhase`).
- `/` created as a file in the in-memory file system is listed as an entry without a name
  (`MemoryDirectory.EmptyNameExactly`); writing nothing beyond the end of a file
  extends it (`MemoryFile.EmptyWrite`).
- A mount at `/` covers no other path (`MountRouter.RootMountCoversOnlyRoot`).
- A regular file above a mount stays one for `Stat`, although its parent lists it as a directory
  (`MountRouter.AncestorIsDirectoryExactly`).

## Model

| member | source | states |
|---|---|---|
| Seccomp.BuildSeccompFilter | internal/guestruntime/agent/sandbox_proc.go:110-128 | up to 254 numbers, the emitted program, run on any syscall data, returns EPERM exactly for the audited architecture and a listed number and ALLOW otherwise; all jumps stay inside it and it halts within list length plus 4 instructions |
| Seccomp.TestsDecide | internal/guestruntime/agent/sandbox_proc.go:119-125 | from any test on, the program decides membership in the rest of the list, in at most one step per entry plus one |
| Seccomp.FilterIsCorrect | internal/guestruntime/agent/sandbox_proc.go:110-128 | compiler correctness of the layout for every list of at most 254 numbers: verdict, bounds, step count |
| Seccomp.CorrectExactlyUpTo254 | internal/guestruntime/agent/sandbox_proc.go:115-122 | for distinct numbers the filter is right for every syscall if and only if there are at most 254 |
| Seccomp.WrapsAt255 | internal/guestruntime/agent/sandbox_proc.go:115 | with 255 numbers a listed call is denied on a foreign architecture too |
| Seccomp.WrapsFrom256 | internal/guestruntime/agent/sandbox_proc.go:119-122 | with 256 or more distinct numbers one of them is allowed |
| Seccomp.BlockedSyscalls | internal/guestruntime/agent/sandbox_proc.go:20-105 | five numbers, exactly those of process_vm_readv, process_vm_writev, ptrace, kexec_load and kexec_file_load on that machine, and its audit architecture, all spelled out |
| Seccomp.SandboxFilter | internal/guestruntime/agent/sandbox_proc.go:107-128 | the installed filter run on any syscall data, denies it exactly for one of the five calls on its own architecture; its ten instructions in the kernel's encoding |
| Glob.MatchGlob | pkg/policy/engine.go:496-519 | true exactly when the string arises from the pattern by putting some string in place of each star, through all three shortcuts and the general matcher |
| Glob.MatchWildcard | pkg/policy/engine.go:522-556 | the same for the general matcher on its own |
| Glob.MatchMiddles | pkg/policy/engine.go:543-553 | the greedy loop succeeds exactly when the parts occur in order without overlap at any positions |
| Glob.GreedyIsComplete | pkg/policy/engine.go:548-552 | if the parts embed at all they embed with the first one at its leftmost occurrence |
| Glob.MatchesByParts | pkg/policy/engine.go:523-541 | a pattern's meaning is prefix, suffix without overlap, and embedded middle parts |
| Sequences.Index | pkg/policy/engine.go:548 | the result is the leftmost occurrence, -1 only if there is none |
| Sequences.Split | pkg/policy/engine.go:523 | the parts joined by the separator are the string, and no part contains it |
| Sequences.ReplaceAllExactly | pkg/policy/network_hooks.go:661-670 | the leftmost occurrence is replaced, and every one behind it, each search starting behind the last match |
| BlobNames.RoundTripExactly | pkg/image/store.go:739-769 | parsing the file name of a digest gives the digest back if and only if it has the form alg:hex without the characters the name gives up |
| BlobNames.StoredIs | pkg/image/store.go:752-769 | what the parser reads from a digest's file name, for every non-empty digest |
| BlobNames.FileNameOf | pkg/image/store.go:739-750 | `alg:hex` is stored as `alg_hex.erofs` |
| BlobNames.SupportedTypes | pkg/image/store.go:771-782 | exactly the empty type and `erofs` in any mixture of cases are supported, with any blank space around them |
| ImageStore.Store.SyncLayerRefCounts | pkg/image/store.go:784-798 | afterwards the counts are the number of layer rows per digest and type, with the largest size, and no other entries |
| ImageStore.CountAndMax | pkg/image/store.go:788-793 | a count is how often digest and type occur in the rows, the size the largest that occurs with them |
| ImageStore.Store.Upsert | pkg/image/store.go:294-360 | one transaction: the image's rows are the new layers in order, all others unchanged, counts agree; nothing on a fault |
| ImageStore.Store.Delete | pkg/image/store.go:555-586 | removes the image and its layer rows, leaves all others and rebuilds agreeing counts; nothing on a fault or for an unknown tag |
| ImageStore.Store.ReferencedKeys | pkg/image/store.go:807-847 | the keys collected are those of counted layers and of parseable rootfs paths |
| ImageStore.Store.Prune | pkg/image/store.go:800-884 | only unreferenced or legacy blobs go; on success none is left, on failure one that could not be removed is; the count is the number of files removed |
| ImageStore.Store.GarbageCollectTwice | pkg/image/store.go:172-177 | the counts are the files removed; on success nothing unreferenced is left and the second collection removed nothing, on failure something that could not be removed is left |
| ImageStore.Store.Get | pkg/image/store.go:362-400 | loads what `Load` defines, with each error in its order |
| ImageStore.LoadedRunsFrom | pkg/image/store.go:362-400 | an image that loads runs from its rootfs file alone if there is a non-empty one that is none of its layers, under the digest and type its path is read as, else from all its layers; the size is the recorded one if positive, else that of the layers |
| ImageStore.LoadedLayersAreRows | pkg/image/store.go:431-463 | its layers are its rows in order, each with digest, size and the blob path of its digest, where there is a non-empty file |
| ImageStore.SizeIsSum | pkg/image/store.go:672-682 | the size of layers adds up their positive sizes |
| ImageStore.NotLoadedBecause | pkg/image/store.go:362-463 | each of the three errors if and only if its cause is there: no image or no layers, an unsupported type, a blob missing or empty |
| ImageStore.Store.GetLayers | pkg/image/store.go:431-463 | the image's layers in order, or an error if one has an unsupported type |
| ImageStore.Store.Remove | pkg/image/store.go:155-170 | fails only for a fault or a file that cannot be removed, not found exactly if the image is not there; exactly this image and its rows go; every other image with well-formed digests that loaded before loads with the same result; every parseable blob left is named by a layer row or a rootfs path |
| ImageStore.Store.Save | pkg/image/store.go:105-139 | fails on layers without digest or of an unsupported type and leaves everything alone; fills in, copies what the cache lacks, saves and prunes; then the image loads with one layer per layer given, under the digest it came with or its path stands for, and every other image that loaded before loads with the same result unless its rootfs path waited for one of these blobs; every error has its cause: no layers, an empty or missing blob, a missing source, a fault, a file that cannot be copied or removed |
| ImageStore.Store.NormalizeLayerRefs | pkg/image/store.go:588-615 | every layer filled in as specified, or failure exactly if one has no digest or an unsupported type |
| ImageStore.DigestFromPath | pkg/image/store.go:590-602 | a layer without a digest gets that of the blob its path leads to, and has none if the path is no blob's |
| ImageStore.Store.EnsureLayersInCache | pkg/image/store.go:617-637 | files are only added, and only under the blob paths of the layers; every layer is recorded at its blob path with the space its file takes, or some layer could not be copied |
| ImageStore.Store.SaveCached | pkg/image/store.go:117-139 | nothing changes if a layer's file is missing or empty; else the image's rows are replaced and a collection follows |
| ImageStore.GrowthUnseen | pkg/image/store.go:617-637 | copying blobs into the cache changes no result of an image that loads, unless its rootfs path waited for one |
| ImageStore.CollectionIsSafe | pkg/image/store.go:800-884 | complete or interrupted, a collection changes no result of an image with well-formed digests |
| ImageStore.SurvivesExactly | pkg/image/store.go:858-882 | any image that loads survives a complete collection if and only if what the parser reads from each of its file names is nothing or referenced |
| ImageStore.MisreadDigestIsLost | pkg/image/store.go:747-882 | in any store, an image with a layer whose file name is read back as a digest that no layer row and no rootfs path names does not load after a complete collection |
| ImageStore.MisreadImageIsLost | pkg/image/store.go:747-882 | for every digest read back as another one there is a store that keeps its invariant, whose image loads before and not after any complete collection |
| ImageStore.UnderscoreExample | pkg/image/store.go:752-769 | a store whose one image has the digest `a_b:c`, and what a complete collection leaves of it: the image loads before and not after |
| ImageStore.UnderscoreIsMisread | pkg/image/store.go:764-768 | an underscore before any colon or slash makes a digest of that kind |
| ImageStore.LeftoversAreNamed | pkg/image/store.go:875-881 | after a complete collection a parseable blob is named by a layer row or a rootfs path |
| ImageStore.OthersStay | pkg/image/store.go:855-874 | a collection leaves alone what lies elsewhere, and what has neither the name of a blob nor one that starts with sha256_ |
| ImageStore.OldBlobsGo | pkg/image/store.go:862-873 | after a complete collection there is no file sha256_... of an unsupported type |
| ImageStore.RootfsProtected | pkg/image/store.go:829-844 | the file a rootfs path points to is never collected |
| ImageSharing.StepInv | pkg/image/store.go:105-177 | every step of saves, removals and collections in several processes keeps rows numbered and counts in agreement, and what is about to be committed well placed |
| ImageSharing.GroupedIsOnly | pkg/image/store.go:784-798 | the counts a transaction leaves are determined by the layer rows |
| ImageSharing.SafeStaysSafe | pkg/image/store.go:105-177 | an image that loads, and of which no collection under way has missed a reference, loads as the same image after any run that does not save or remove it |
| ImageSharing.ThreatenedIsLost | pkg/image/store.go:800-884 | for an image of which a collection has missed a reference there is a run that never touches it and ends with a file of it gone |
| ImageSharing.SurvivesSharingExactly | pkg/image/store.go:105-177 | an image survives every run that does not touch it if and only if no collection under way has missed a reference of it |
| ImageSharing.CommitLoadsExactly | pkg/image/store.go:117-133 | after the commit of a save the image loads if and only if the files checked before are still there |
| ImageSharing.CommitIsSafeExactly | pkg/image/store.go:117-139 | it is safe if and only if moreover no collection under way misses one of its files |
| ImageSharing.CommitIsLost | pkg/image/store.go:117-139 | a save that commits while a collection misses one of its files loads, and is lost by a run of the others |
| ImageSharing.CollectedWhileSaving | pkg/image/store.go:117-139 | from an empty cache, for every well-formed digest, such a run of two processes |
| DnsForwarder.StepInv | pkg/net/dns_forwarder.go:76-205 | every atomic step of worker, receiver and `Close` keeps the invariant on lock, sockets, tracked set and snapshot; an upstream is refused, and a goroutine gives up, only once the stop channel is closed |
| DnsForwarder.RunInv | pkg/net/dns_forwarder.go:43-205 | the invariant holds in every state of every interleaving |
| DnsForwarder.TrackedBound | pkg/net/dns_forwarder.go:20-38 | in every run at most 32 upstreams are tracked and at most 128 queries wait |
| DnsForwarder.AllAtOnce | pkg/net/dns_forwarder.go:43-186 | the bound is reached: some run from a new forwarder has 32 upstreams tracked at once |
| DnsForwarder.NothingRefusedBeforeStop | pkg/net/dns_forwarder.go:177-186 | in every run, while the stop channel is open no worker is refused an upstream and no goroutine has given up |
| DnsForwarder.NextServer | pkg/net/dns_forwarder.go:121-164 | a query starts with the first server; the next one is tried exactly after a failed dial or an exchange without an answer, or when stopping; an answer comes only from an exchange |
| DnsForwarder.ExchangeIsPossible | pkg/net/dns_forwarder.go:139-192 | while the stop channel is open and the lock free, a worker at a server can dial a fresh socket that is accepted, tracked while used, then closed and untracked, and have the answer, or go on to the next server |
| DnsForwarder.QueryIsAnswered | pkg/net/dns_forwarder.go:109-192 | from every such state with a query waiting and a worker free, whichever server is the first to answer, there is a run on which the worker gets the answer after trying the servers before it in order, everything dialed closed |
| DnsForwarder.QueryIsGivenUp | pkg/net/dns_forwarder.go:109-164 | and one on which no server answers, all are tried, and the worker waits again without an answer |
| DnsForwarder.QueryIsQueued | pkg/net/dns_forwarder.go:87-107 | a query that arrives while fewer than 128 wait is queued, and the receiver reads on |
| DnsForwarder.NothingAcceptedAfterStop | pkg/net/dns_forwarder.go:177-186 | no upstream is accepted after the stop channel is closed |
| DnsForwarder.SnapshotIsComplete | pkg/net/dns_forwarder.go:194-200 | from the snapshot on, every tracked upstream is in it and every accepted one is in it or closed, including those inserted after the stop channel was closed |
| DnsForwarder.NoWorkerWaitsOnOpenUpstream | pkg/net/dns_forwarder.go:202-204 | when `Close` waits for the workers, every upstream a worker still uses is closed |
| DnsForwarder.ClosedWhenReturned | pkg/net/dns_forwarder.go:77-85 | when `Close` has returned nothing is tracked and every socket ever dialed is closed |
| DnsForwarder.MeasureDecreases | pkg/net/dns_forwarder.go:87-159 | once the listening socket is closed every step uses up some of what is left to do |
| DnsForwarder.NoDeadlock | pkg/net/dns_forwarder.go:76-205 | from the closing of the listening socket until `Close` has returned some goroutine can take a step that waits for no open upstream |
| DnsForwarder.CloseReturns | pkg/net/dns_forwarder.go:77-85 | after it has closed the listening socket, at most 615 steps of anybody are left and they end with `Close` returned |
| SseTransform.Reader.Read | pkg/policy/network_hooks.go:688-714 | the bytes handed out are the next ones of what is left to receive, at least one unless at the end, which is reported exactly when nothing is left; the rest of the buffer is untouched |
| SseTransform.ReadRun | pkg/policy/network_hooks.go:688-714 | for any sequence of non-empty buffers the bytes received up to the end are the line-by-line transformed body, and enough buffers reach the end |
| SseTransform.TransformSSEDataLine | pkg/policy/network_hooks.go:723-745 | the line transformed as specified, terminator kept |
| SseTransform.TerminatorIsKept | pkg/policy/network_hooks.go:731-743 | a data line comes out the same, replacements made, whether it ends in nothing, LF or CR LF, followed by just that |
| SseTransform.OtherLinesPass | pkg/policy/network_hooks.go:723-727 | a line that is not a data line comes out as it is |
| SseTransform.NoReplacementsNoChange | pkg/policy/network_hooks.go:688-745 | without replacements every body comes out as it is |
| SseTransform.ApplyBodyReplacements | pkg/policy/network_hooks.go:661-670 | all replacements in order, empty search texts skipped |
| SseTransform.LinesPartition | pkg/policy/network_hooks.go:697 | the lines put together are the body, and only the last may lack its line feed |
| SseTransform.LinesOfConcat | pkg/policy/network_hooks.go:697 | lines put together come apart into the same lines |
| SseTransform.FramingIsKept | pkg/policy/network_hooks.go:661-745 | if every replacement is skipped, has no line feed in its text or one in its search text, the output has as many lines and line feeds as the body, with data lines in the same positions |
| SseTransform.FramingIsKeptExactly | pkg/policy/network_hooks.go:661-745 | a list of replacements keeps the framing of every body if and only if it puts no line feed into any text that has none |
| SseTransform.SingleReplacementFraming | pkg/policy/network_hooks.go:661-670 | one replacement keeps the framing of every body if and only if its search text is empty, its text has no line feed or its search text has one |
| SseTransform.OrderDecidesFraming | pkg/policy/network_hooks.go:661-670 | of two lists of the same two replacements one keeps every framing and the other does not |
| SseTransform.CarriageReturnBreaksLine | pkg/policy/network_hooks.go:697-745 | a replacement text with a carriage return gives the one-line body that asks for it a line end it did not have |
| SseTransform.LoneCarriageReturnHidesData | pkg/policy/network_hooks.go:697-726 | behind a lone carriage return a data line is passed on as it is, whatever the replacements |
| MemoryFile.MemFile.ReadAt | pkg/vfs/memory.go:319-332 | copies the contents from the offset, as many as fit, and reports the end exactly when fewer were there |
| MemoryFile.MemFile.WriteAt | pkg/vfs/memory.go:340-354 | the contents are overwritten at the offset, with zeros in a gap, whatever the backing array held |
| MemoryFile.MemFile.Truncate | pkg/vfs/memory.go:386-399 | the contents are cut or extended with zeros, while a cut leaves the backing array as it is |
| MemoryFile.MemFile.Perform | pkg/vfs/memory.go:340-399 | any run of writes and truncations on the slice refines the run on a byte sequence |
| MemoryFile.FileHoldsLastValues | pkg/vfs/memory.go:340-399 | at every position a file holds the last value written there since it was last cut at or below it, else zero; its length is that of the run |
| MemoryFile.HiddenBytesStayHidden | pkg/vfs/memory.go:390-396 | bytes hidden by a truncation never reappear |
| MemoryFile.EmptyWrite | pkg/vfs/memory.go:344-349 | writing nothing leaves a file as it is if and only if it is not beyond the end; there it extends the file |
| MemoryDirectory.Provider.ReadDir | pkg/vfs/memory.go:66-120 | distinct names, exactly the first components of the paths below the directory, each entry backed by a path of its kind |
| MemoryDirectory.Provider.RemoveAll | pkg/vfs/memory.go:250-273 | removes exactly the path and what lies below it, in both maps |
| MemoryDirectory.RemoveEntry | pkg/vfs/memory.go:250-273 | afterwards the parent lists the same names but for the one removed |
| MemoryDirectory.RemoveAllTakesOneName | pkg/vfs/memory.go:66-120 | the same for any two maps of paths, consistent or not |
| MemoryDirectory.EmptyNameExactly | pkg/vfs/memory.go:83-93 | with normalised paths an entry has no name exactly when `/` is listed and has been created as a file |
| MountRouter.Router.Resolve | pkg/vfs/router.go:35-47 | the first covering mount of the sorted list |
| MountRouter.ResolvesToLongest | pkg/vfs/router.go:35-47 | resolution gives the longest mount at or above the path, mount path and rest give the path back, and it fails exactly when there is none |
| MountRouter.ResolutionIgnoresOrder | pkg/vfs/router.go:27-29 | the set of mounts alone decides every resolution, in whatever order the unstable sort leaves equal lengths |
| MountRouter.RootMountCoversOnlyRoot | pkg/vfs/router.go:38 | a mount at `/` covers `/` only |
| MountRouter.Router.constructor | pkg/vfs/router.go:22-31 | the list is sorted and holds exactly the mounts given |
| MountRouter.Router.AddMount | pkg/vfs/router.go:308-314 | the list stays sorted and gains exactly the new mount |
| MountRouter.Router.RemoveMount | pkg/vfs/router.go:316-324 | the list stays sorted and loses exactly the first mount at the path, if any |
| MountRouter.RemovedAgain | pkg/vfs/router.go:308-324 | whatever `AddMount` and then `RemoveMount` at a new path leave, paths stay distinct and every path resolves as before |
| MountRouter.Router.Stat | pkg/vfs/router.go:49-66 | the provider's answer, or a synthetic directory where only mounts below make the path exist |
| MountRouter.StatOfProvider | pkg/vfs/router.go:49-66 | information and errors are those of the provider of the longest mount above, at the rest of the path; only a missing path above a mount is a directory of mode 0755 under its last component |
| MountRouter.StatWithoutProvider | pkg/vfs/router.go:49-57 | without a mount above, such a directory if a mount lies below, else the path is missing |
| MountRouter.Router.DescendantMountEntries | pkg/vfs/router.go:126-162 | one entry per first component of the mounts below, a directory if anything is nested, else the mount's own information, independent of the order of mounts |
| MountRouter.Router.ReadDir | pkg/vfs/router.go:68-124 | provider entries first in their order, then mount-only names sorted, all names distinct, mount entries overriding; errors as in the source |
| MountRouter.ListingOfProvider | pkg/vfs/router.go:68-124 | with no mount below, the listing is that of the provider of the longest mount above, at the rest of the path, or its error; with mounts below, every entry no mount has the name of is the provider's last of that name, and none of its names is missing |
| MountRouter.ListingOfMount | pkg/vfs/router.go:126-162 | a mount right below appears with its provider's information about its root, one further below or failing as a directory of mode 0755 |
| MountRouter.LexLeExactly | pkg/vfs/router.go:116 | names are sorted by dictionary order: a beginning comes first, else the first difference decides |
| MountRouter.AncestorShowsNext | pkg/vfs/router.go:49-124 | a strict ancestor of a mount answers `Stat` and lists the next component exactly once |
| MountRouter.AncestorIsDirectoryExactly | pkg/vfs/router.go:49-66 | above a mount `Stat` says directory if and only if no provider reports a file there |
| MountRouter.EveryMountReachable | pkg/vfs/router.go:49-198 | if providers fail with missing-path errors only, every mount is reached from `/` by following listed names |
| Migrations.Database.Migrate | pkg/storedb/db.go:77-179 | unless a restore fails the file ends as it was or with everything pending applied in ascending order: on success every pending statement has been executed, in order, each on what the one before left, from the old content to the new, and just their versions are added; nothing pending or a duplicate version changes nothing; without faults everything is applied; after a failure the earlier content is in the file or its backup if and only if it failed before there was a backup, the restore worked or left that content, or deleting the backup failed |
| Migrations.Database.RunPending | pkg/storedb/db.go:141-176 | succeeds exactly when no transaction fails, having executed every statement in order; else the file is what the restore leaves, and the backup is gone unless deleting it failed |
| Migrations.ExecutesApplies | pkg/storedb/db.go:141-176 | a list of statements that can be executed one after another can be applied, to the same content |
| Migrations.Database.Attempts | pkg/storedb/db.go:77-179 | after any sequence of attempts with working restores the file is the original or fully migrated, and one attempt without faults suffices |
| Migrations.SortedIsUnique | pkg/storedb/db.go:89-99 | with distinct versions there is one ascending order, so an unstable sort does not matter |
| Migrations.PendingAscending | pkg/storedb/db.go:120-125 | pending migrations stay in ascending order |
| Migrations.PendingVersions | pkg/storedb/db.go:120-128 | pending are exactly the versions not recorded, none exactly when all are recorded |
| Migrations.ApplyAllRecords | pkg/storedb/db.go:157-163 | applying a list records exactly its versions |
| ConnectionPool.UpstreamConnPool.Get | pkg/net/connpool.go:42-60 | with the clock read again for every connection popped: the most recently idle connection, if it has been idle for at most 90 seconds, else the host's whole list, all idle for longer, is drained and closed; other hosts untouched; invariant kept |
| ConnectionPool.UpstreamConnPool.Put | pkg/net/connpool.go:63-74 | appended as idle since now, or closed when four are there; other hosts untouched; invariant kept |
| ConnectionPool.UpstreamConnPool.Reap | pkg/net/connpool.go:81-100 | exactly the connections idle for at most 90 seconds stay, in order, and exactly the others are closed; invariant kept |
| ConnectionPool.CompactInPlace | pkg/net/connpool.go:85-92 | the front of the same array holds exactly the unexpired ones in order |
| ConnectionPool.PopMeans | pkg/net/connpool.go:47-59 | in a list ordered by idle time the last one decides for all |
| ConnectionPool.UnexpiredMeans | pkg/net/connpool.go:86-92 | the kept ones are exactly the unexpired ones, each from its place and in order |
| ConnectionPool.StepInv | pkg/net/connpool.go:42-100 | every operation keeps lists short, ordered and disjoint, and every connection in exactly one of pooled, handed out, closed |
| ConnectionPool.RunInv | pkg/net/connpool.go:42-100 | over any run under a clock that does not go back, what was dialed is all there is and what is closed stays closed |
| LifecyclePhases.TransitionsAdvance | pkg/lifecycle/state_machine.go:7-86 | every permitted change of phase advances in rank, but for cleanup_failed to cleaning |
| LifecyclePhases.CleaningIsNext | pkg/lifecycle/state_machine.go:7-86 | exactly the phases other than cleaned and unknown ones can go to cleaning directly |
| LifecyclePhases.EnteredFrom | pkg/lifecycle/state_machine.go:7-86 | for every phase, the phases it is entered from |
| LifecyclePhases.CleanedIsFinal | pkg/lifecycle/state_machine.go:69-71 | cleaned is absorbing |
| LifecyclePhases.NeverRunningAgain | pkg/lifecycle/state_machine.go:32-71 | no path reaches running or an earlier phase after stopping |
| LifecyclePhases.NoStageIsSkipped | pkg/lifecycle/state_machine.go:7-72 | on a path from creating, a VM runs only after starting, starts only once created and stops only after stopping |
| LifecyclePhases.EveryPhaseIsReached | pkg/lifecycle/state_machine.go:7-72 | every phase can be reached from creating |
| LifecyclePhases.NoPhaseRepeats | pkg/lifecycle/state_machine.go:7-72 | without a retried cleanup every phase is left for good |
| LifecycleVersions.StepInv | pkg/lifecycle/record.go:412-474 | every step of an interleaved transaction keeps the tables contiguous, and only a commit changes them |
| LifecycleVersions.InsertNeverConflicts | pkg/lifecycle/record.go:435-449 | the version drawn is always free |
| LifecycleVersions.RunInv | pkg/lifecycle/record.go:369-474 | from contiguous rows, with or without a head row, every interleaving keeps versions 1 to n and the head at n |
| LifecycleVersions.HistoriesOnlyGrow | pkg/lifecycle/record.go:412-456 | a VM's history only grows at its end, whoever saves |
| LifecycleVersions.LoadIsLastOfHistory | pkg/lifecycle/record.go:144-193 | the history is versions 1 to n in order and what is loaded is version n |
| LifecycleVersions.SavedAppends | pkg/lifecycle/record.go:458-474 | a committed save appends one record with the next version to its VM and touches no other |
| LifecycleStore.Store.Save | pkg/lifecycle/record.go:393-410 | succeeds exactly when one of the first eight attempts commits after busy ones only; appends one record then and nothing otherwise |
| LifecycleStore.EightAttempts | pkg/lifecycle/record.go:393-410 | eight attempts are made while the database is busy, none after another error |
| LifecycleStore.Store.Load | pkg/lifecycle/record.go:280-325 | the last record, or a default one that says creating |
| LifecycleStore.LatestIs | pkg/lifecycle/record.go:308-324 | what is loaded is the last record; of a VM without one, a record of version 0 that says creating and nothing else |
| LifecycleStore.Store.Update | pkg/lifecycle/record.go:241-257 | for any update function: appends the updated record exactly when the function succeeds on the last one and the save succeeds; other VMs' histories stay |
| LifecycleStore.Store.Apply | pkg/lifecycle/record.go:195-239 | the setters for phase, last error, resources and cleanup results: appends the changed record exactly when the change is permitted and the save succeeds |
| LifecycleStore.ChangeMeans | pkg/lifecycle/record.go:195-239 | each setter sets what it is about and leaves every other field and every other cleanup result alone; only a phase can be refused, and is exactly if not permitted |
| LifecycleStore.Store.Updates | pkg/lifecycle/record.go:195-257 | any list of updates appends, in order, the record of each that is permitted and whose save succeeds |
| LifecycleStore.Store.InitAndUpdate | pkg/lifecycle/record.go:113-257 | succeeds exactly when the save of `Init` does; then the history is the old one, a record that says creating, and those of the updates |
| LifecycleStore.RecordedFollows | pkg/lifecycle/record.go:195-257 | whatever fails, updates only append, and keep the phases recorded from some version on a path of the phase graph |
| LifecycleStore.InitFollows | pkg/lifecycle/record.go:113-257 | whatever was recorded before, after `Init` and any list of updates the phases recorded since start at creating and follow the phase graph |
| LifecycleUpdates.HarmlessExactly | pkg/lifecycle/state_machine.go:7-86 | whatever one phase permits a later one permits too if and only if they are equal or are cleaning and cleanup_failed |
| LifecycleUpdates.StaleFollowsExactly | pkg/lifecycle/record.go:241-257 | behind a history on the graph, every change of an older record stays on it if and only if the phase loaded and the last one are such a pair; a change of something else than the phase if and only if they are; a change of phase if and only if the last phase permits it |
| LifecycleUpdates.MoveInv | pkg/lifecycle/record.go:241-257 | every step of several stores keeps the tables contiguous, one transaction at a time, and each pending save a change of an earlier record of its VM |
| LifecycleUpdates.CommitFollowsExactly | pkg/lifecycle/record.go:241-257 | in any such state, a commit keeps a history on the graph if and only if the last phase permits what it records |
| LifecycleUpdates.HarmlessRunsFollow | pkg/lifecycle/record.go:113-257 | over any run of several stores, with saves of other VMs and failures in between, a VM's history since its last `Init` follows the graph if every update saved was loaded at a phase harmless to the last one |
| LifecycleUpdates.UndisturbedRunsFollow | pkg/lifecycle/record.go:113-257 | in particular if no update of that VM is saved between another one's load and save |
| LifecycleUpdates.StaleUpdateLeavesGraph | pkg/lifecycle/record.go:241-257 | from an empty database, for every path of the graph and every point on it there is a run in which one store takes the VM along the path and another saves a note loaded at that point; the history it leaves follows the graph if and only if the phase there and the last one are harmless |
| LifecycleUpdates.RunsAfterStopping | pkg/lifecycle/record.go:241-257 | a run that records creating, created, starting, running, stopping, running |
| Reconcile.ReconcileVM | pkg/lifecycle/reconcile.go:74-129 | from any phase the record ends in cleaned if all steps succeed and in cleanup_failed otherwise, staying in cleaned or in an unknown phase; the joined error is recorded, or none; a VM without a record gets one with its root file system; cleanup marks are recorded, and the phases still follow the graph from any record from which they did, such as the last `Init` |
| Reconcile.MarksMean | pkg/lifecycle/reconcile.go:131-181 | afterwards each step's name says its own result, and the bootstrap image's what it said before if the root file system could not be removed |
| Reconcile.PlatformMarksMean | pkg/lifecycle/reconcile.go:100-107 | and each platform step's name its last result |
| Subnets.SubnetAllocator.Allocate | pkg/state/subnet.go:61-111 | the same subnet again for a VM that has one, else the smallest free octet; exhaustion exactly when 155 VMs hold one |
| Subnets.SubnetAllocator.UsedOctets | pkg/state/subnet.go:113-132 | the octets held |
| Subnets.SubnetAllocator.Release | pkg/state/subnet.go:135-147 | the octets in use are those before without the VM's own, if it had one |
| Subnets.SubnetAllocator.Cleanup | pkg/state/subnet.go:167-200 | keeps exactly the rows of existing VMs |
| Subnets.SubnetAllocator.ReleaseThenAllocate | pkg/state/subnet.go:61-147 | in a full pool the next VM gets the octet just released |
| Subnets.FullExactly | pkg/state/subnet.go:78-87 | all octets are in use if and only if 155 VMs hold one |
| Subnets.AddressesAreDistinct | pkg/state/subnet.go:89-95 | no two VMs share a gateway, guest address or subnet |
| Subnets.AddressesOf | pkg/state/subnet.go:89-95 | an octet in three decimal digits makes the gateway 192.168.X.1, the guest address 192.168.X.2 and the subnet 192.168.X.0/24 |
| SubnetSharing.StepInv | pkg/state/subnet.go:61-147 | with several allocators on one database, every look-up, scan, insert, release and cleanup keeps octets in range and held by one VM at most |
| SubnetSharing.AloneAllocates | pkg/state/subnet.go:61-111 | an allocator nobody interferes with answers what one on a table of its own does |
| SubnetSharing.ReleasedIsReused | pkg/state/subnet.go:61-200 | in a full table, releasing a VM or cleaning up after it gives its octet to the next one |
| SubnetSharing.NeverShared | pkg/state/subnet.go:61-111 | in no interleaving do two VMs hold one octet, gateway or subnet |
| SubnetSharing.ExhaustedWasFull | pkg/state/subnet.go:78-87 | in any interleaving, exhaustion is reported only if 155 VMs held a subnet at the scan |
| SubnetSharing.InsertFailsExactly | pkg/state/subnet.go:78-111 | in any interleaving, an insert without an I/O fault fails if and only if the VM has a row by now or some VM holds the octet that did not hold it at the scan; else the VM gets the lowest octet free at the scan |
| SubnetSharing.OvertakenBetween | pkg/state/subnet.go:78-111 | an insert that finds its octet taken was overtaken: a step between its scan and itself took the octet, which was free at every state until then |
| SubnetSharing.SimultaneousScansCollide | pkg/state/db.go:48-55 | on any table with a free octet there is a run of two allocators that find the same octet; the second fails, and an octet is free then unless just one was free at first |
| Framing.ReadFull | pkg/vsock/vsock.go:362-372 | however the stream is split, more calls than bytes decide: the buffer is filled with the next bytes if there are enough; else it fails if the peer has reset the connection, and if the peer has closed it the loop is under way after any number of calls |
| Framing.ReadMessage | pkg/vsock/vsock.go:341-360 | returns the first message of the stream and consumes exactly its bytes; on a stream that ends before, an error after a reset, and no return within any number of calls after an orderly close |
| Framing.WriteMessage | pkg/vsock/vsock.go:324-338 | the bytes sent are the frame if and only if both writes take their whole buffer |
| Framing.WriteMessages | pkg/vsock/vsock.go:324-338 | a list of messages is sent as the concatenation of its frames |
| Framing.ReadMessages | pkg/vsock/vsock.go:341-372 | for every splitting of the stream the messages written are the messages read, and nothing beyond is consumed |
| Framing.RoundTripExactly | pkg/vsock/vsock.go:327-348 | one message survives if and only if its payload is shorter than 2^32 bytes |
| Framing.FrameBytes | pkg/vsock/vsock.go:325-327 | a frame is the kind, the length in four bytes with the highest first, and the payload |
| Framing.DecodedBytes | pkg/vsock/vsock.go:341-360 | what a reader makes of any given bytes, in terms of the bytes themselves |
| Framing.FramesInjective | pkg/vsock/vsock.go:324-338 | different lists of messages never look the same on the wire |

## Left out

- SQL, SQLite, WAL files, file locks and JSON: tables are maps or sequences, a transaction is one step or, in `LifecycleVersions`, a few.
- Networking, TLS, virtual machines, firewall rules and the command line: foreign or plain I/O.
- `filepath.Clean`: paths are taken as it leaves them; two spellings of one path count as two.
- Characters: strings are sequences of one-byte characters; trimming and lower-casing in `BlobNames` are for ASCII.
- DnsForwarder: packet contents, timeouts and second callers of `Close`, who wait for the first one's work and then for the same goroutines.
- DnsForwarder: a step of a goroutine that holds the lock is atomic except in `trackUpstream`, since nothing else reads or writes the set meanwhile.
- ImageStore.Store.CopyBlob: a copy that breaks off leaves nothing behind; a partial file that cannot be removed again is not modelled.
- ImageStore: listing images, timestamps, and file contents; a file is its size and the space it takes.
- ImageStore.Store.Prune: a blobs directory that cannot be read at all is not modelled; files that cannot be removed are.
- ImageSharing: a file is in the cache as a whole or not at all; a copy seen half-way by another process is not modelled.
- SseTransform: read errors other than the end of the body, and the buffering below `ReadBytes`.
- MemoryFile: handle offsets, modes and times, the 64-bit width of offsets, and negative offsets.
- MemoryDirectory: `Rename`, `Remove` and `MkdirAll`; no tree invariant is claimed, and the listing results hold without one.
- MountRouter: operations that only forward to the provider; a provider is what it answers at one moment.
- Migrations: statements that change the migration table themselves, and a crash of the process in the middle of a run.
- ConnectionPool: the buffered readers kept with the connections.
- LifecycleStore.Store.Update: an update function that renames the record's VM, which no caller does, is left out.
- LifecycleStore: the backend, the other resources and time stamps of a record, and the lookup of the VM's name from its directory; in `LifecycleStore` one caller uses the store at a time; `LifecycleUpdates` has the others.
- Reconcile: listing all VMs, the lists of a report, and the cleanup steps themselves, which report success or failure; record writes succeed.
- Framing: a stream that stays open without sending, on which a read waits.
- Framing.Conn.Write: errors of the write call itself.
