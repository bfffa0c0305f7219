# Verified model of the Coriolis snapshot agent

The agent drives a change-tracking kernel module: it takes copy-on-write snapshots of
tracked disks, tells a backup client which byte ranges changed since the snapshot the client
last copied, and keeps the snap stores (the files the kernel copies old blocks into) and
their database rows in step with the kernel. This project models that logic in Dafny and
proves what it keeps over whole runs. `dafny verify dfyconfig.toml` checks everything.

| file | part of the agent |
|---|---|
| `Increments`, `ChangedSectors`, `Sync` | from the kernel's map of stamps to byte ranges, full or incremental, and the backup protocol over whole runs |
| `Lifecycle`, `Recorders`, `Reuse` | snap stores as a concurrent step system: manager, watchers, message channel, handler, each database call one step; when a store's row is there to stay |
| `Watcher`, `WatcherRuns` | the reader loop of one store's character device, byte by byte, and its refinement into `Lifecycle` for every sequence of reads |
| `Wire`, `Extents` | the frames written to the character device, and the way of a file's extents into them |
| `Tables`, `Decimal` | the database tables, their invariant, and snapshot IDs on their way through them |
| `Snapshots` | when creating and deleting snapshots succeeds, what it does to the tables, and what a failure leaves |
| `Mappings` | requests for mappings, which take no lock, as a concurrent step system |
| `Startup`, `Restart` | disks, locations and mappings, initialisation from the configuration, its exact effect, and restarts |
| `Manager` | the agent as a class: its operations proved against the above, and whole runs of requests |
| `Capture` | from the row a snapshot is recorded in to the backup protocol |
| `Words`, `Rows`, `Sums`, `Machines` | integers of the source's width, records, sums over tables, runs of a step function |

State the source changes in place is a class here (`SnapshotManager`,
`CharacterDeviceWatcher`), its loops are loops, its byte buffers are arrays; each method is
tied to a function on values, and the promises are lemmas about those functions. What a
search, a query, a filter or a frame means is stated once more without the function that
computes it: on the stamps, the list's entries, the rows, the bytes.

## What turned out not to hold

Each of these follows the code, and comes with the exact condition under which the code does
what is expected.

- A dirty block 0 is dropped from an incremental answer whenever another block is dirty too,
  because start 0 doubles as "no range yet" (worker/manager/manager.go:794). The exact
  account is `RangesExact`; `Block0CanGoStale` is a run that leaves a client with a stale
  block 0; `Block0Exact` says when an incremental pull gets block 0 right, and `Block0Traced`
  which snapshot a client's block 0 comes from after any run.
- `TotalAllocatedSize` loses an addition when two recorders overlap: exact if and only if
  none did (`TotalExactIffNoOverlap`); `TotalCanBeLost` is such a run.
- `allocatedSpace` is added to by the manager and by the watcher without a lock:
  `SpaceCanBeLost` is a run that loses a file's size for good, `SpaceIsConserved` says that
  the sum is exact if and only if the two additions never raced.
- The multi-device frame carries the command word of an initiate frame
  (worker/snapstore/types.go:142), although CHARCMD_NEXT_PORTION_MULTIDEV exists.
  `MultidevMistakenIff` says exactly when such a frame also reads as an initiate frame.
- A failed `CreateSnapshot` is not rolled back in full: `err` is shadowed in the loop over
  devices (worker/manager/manager.go:578), and the error of the deferred destroy ioctl is
  dropped (worker/manager/manager.go:546-550). Its contract gives the whole state a failure
  leaves. The image and volume tables are restored if and only if the failure came before
  the loop, or in the loop's first turn without a volume ID that was taken, or after a loop
  without turns (`Restores`, `RestoredIff`). Once the kernel took the snapshot, it stays if
  and only if the failure was in the loop or the kernel refuses the undo (`Leaks`).
  `FailedCreateIsNotUndone` and `UndoFails` are concrete failing inputs, one of each kind.
- `CreateSnapStoreMapping` takes no lock (worker/manager/manager.go:352), and requests for it
  are served concurrently (apiserver/routers/routers.go:84): a disk has one mapping if and
  only if no two of the calls that inserted one for it overlapped (`MappedOnceIff`);
  `MappingCanDouble` is a run in which it gets two.
- A create is handed the row of a store its disk already has
  (worker/manager/manager.go:416-422) even when the kernel was asked to clean that store up.
  The row is there to stay if and only if it was not (`RowIsThereToStayIff`).
- A failed `CreateSnapStore` leaves the store's row exactly when the directory could not be
  prepared (`AfterCreate`): that error is in a variable the deferred function does not see.

The stamp convention is an assumption: a write made after snapshot k carries k + 1, and the
map read for snapshot c is the map frozen when c was taken. The filter at
worker/manager/manager.go:791 is right only under this reading of
internal/ioctl/ioctl.go:104-111; the illustration at README.md:25 can be read the other way,
and the model follows the code.

Other assumptions on the environment: the kernel draws a generation ID never used before when
it resets a map, and resets before it would need stamp 256; UUIDs are fresh; TERMINATE is sent
for a store only after a cleanup ioctl on it; an allocated file is not empty; a FIEMAP call
returns at least one of the extents that remain, in logical order; a successful tracking ioctl
leaves the device listed with a map that is not empty. An insert fails iff its key is
present, an update or delete iff it is absent.

## Model

| member | source | states |
|---|---|---|
| Increments.FetchIncrements | worker/manager/manager.go:785-818 | The loop with its start/length variables returns exactly the maximal runs of reported blocks, as byte ranges; which bytes these are, from the stamps; `{0,0}` alone when there is nothing, or when the block size is 0. |
| Increments.RangesExact | worker/manager/manager.go:789-817 | For every byte: a full answer covers the whole map; an incremental one covers a byte from block 1 on iff its block has prev < stamp <= current; block 0 iff it is the only dirty block. |
| Increments.RangesCanonical | worker/manager/manager.go:789-817 | For every map and block size: ranges are block-aligned, inside the map, ordered, a whole block apart; their lengths add up to the blocks covered; the only empty range is the lone one for "nothing". |
| Increments.RangesMinimal | worker/manager/manager.go:803-811 | When some block is reported, no list of ranges covering the same bytes is shorter. |
| ChangedSectors.FindVolumeSnapshotForDisk | worker/manager/manager.go:751-767 | Finds the last volume of that disk in the snapshot; not found iff there is none, the snapshot is missing or the ID is empty. |
| ChangedSectors.GetChangedSectors | worker/manager/manager.go:820-854 | Full iff no previous number or another generation, else incremental from the number given; the ranges are those of that volume's map; the error cases exactly. |
| Sync.RunKeeps | worker/manager/manager.go:587-597 | Every run of writes, resets, snapshots by anyone, creates, deletes and pulls keeps the protocol invariant: any later map of a generation bounds what changed since any earlier snapshot of it. |
| Sync.SyncCorrect | worker/manager/manager.go:820-854 | After any run, a pull leaves the client with exactly the snapshot's image from block 1 on, and with all of it when the answer was full. |
| Sync.ClientAlwaysConsistent | worker/manager/manager.go:831-843 | At every point of every run the client's copy is, from block 1 on, the image of the snapshot it names. |
| Sync.Block0Exact | worker/manager/manager.go:794-798 | A client whose block 0 was right has it right after an incremental pull iff block 0 was not dropped or its content did not differ. |
| Sync.Block0CanGoStale | worker/manager/manager.go:794-798 | A concrete run from a fresh disk after which the client's block 0 is stale. |
| Sync.Block0Traced | worker/manager/manager.go:794-798 | After every run, stale or not, the client's block 0 is that of the snapshot the last pull that brought block 0 was made from; it is right iff that snapshot and the one the client names agree on block 0. |
| Sync.CreateThenPull | worker/manager/manager.go:820-854 | After any run, creating a snapshot and pulling it brings, from block 1 on, the disk as it was when the snapshot was taken; all of it when the answer is full. |
| Sync.IncrementsCompose | worker/manager/manager.go:791 | In every run, for snapshots p < m < c of a generation, dirty(p,c) = dirty(p,m) united with dirty(m,c), and the ranges agree from block 1 on. |
| Sync.IncrementIsWhatWasWritten | worker/manager/manager.go:785-818 | Between any two snapshots of one generation, taken anywhere in any run: a byte from block 1 on is in the increment iff some write in between touched its block; a byte of block 0 iff block 0 was touched and no other block was. |
| Sync.ResetForcesFull | worker/manager/manager.go:831-843 | After a reset at any point of any run, the next pull leaves the client with the whole disk as it was at the snapshot. |
| Recorders.RunKeeps | worker/manager/snapstores.go:242-267 | Under every interleaving of recorders, each total, stored or about to be written back, is the sum of a known set of file rows, and no total ever counts both of two calls that overlapped. |
| Recorders.TotalNeverExceedsFiles | worker/manager/snapstores.go:250-264 | In every interleaving the stored total is at most the sum of the file rows. |
| Recorders.TotalExactIffNoOverlap | worker/manager/snapstores.go:242-267 | Once all calls have returned, the total equals the sum of the rows iff no two calls overlapped. |
| Recorders.TotalCanBeLost | worker/manager/snapstores.go:250-264 | For any two files of any sizes there is a run from a new store whose total ends up as the second size alone. |
| Lifecycle.RunFinal | worker/manager/worker.go:50-78 | In every reachable state of the step system: the deletion invariant of every store (names, phases, rows only disappearing once Deleted is handled). |
| Lifecycle.DeletionIsFinal | worker/manager/worker.go:65-78 | Once the handler finished a store's Deleted message, no store or file row of it exists, then or after any continuation, however half-fill records and the manager's own cleanup raced. |
| Lifecycle.DeletedIsLast | worker/snapstore/character_device_watcher.go:87-99 | Over every run: among a store's messages on their way, Deleted is the last and only after a cleanup ioctl; nothing follows once the handler acts on it. |
| Lifecycle.RunSpace | worker/snapstore/character_device_watcher.go:204-205 | In every reachable state the counter, the stale copies both sides hold, the rows and the messages balance, and no file is counted twice. |
| Lifecycle.SpaceIsConserved | worker/manager/manager.go:435-442 | For a live store of this process, in every reachable state: allocatedSpace <= file rows + sent, queued or in-hand AddFile sizes + the initial file not yet recorded, less what is only about to be added; equal unless the two unsynchronised additions raced; between additions, equal iff they never raced. |
| Lifecycle.SpaceCanBeLost | worker/snapstore/character_device_watcher.go:204-205 | A concrete run from a first start after which, in every continuation in which the store lives, the counter falls short. |
| Lifecycle.RecordingAlone | worker/manager/snapstores.go:242-267 | Three calls without interference put in the file's row and raise the total by its size. |
| Lifecycle.DeletingAlone | worker/manager/manager.go:716-730 | Without interference a deletion takes exactly the store's row and those of its files, however many there are. |
| Lifecycle.StartOutcomes | worker/manager/snapstores.go:139-183 | A creation ends with row and watcher, with neither, or with the row alone. |
| Reuse.RowIsThereToStayIff | worker/manager/manager.go:416-422 | In every reachable state: the row of a started store whose watcher is between turns survives every continuation without a further cleanup of it iff no cleanup ioctl was issued for it before. |
| Reuse.RowStays | worker/manager/worker.go:65-78 | In every run the row of a started store goes only after a cleanup ioctl on it. |
| Mappings.RunKeeps | worker/manager/manager.go:352-388 | Under every interleaving of mapping requests, any two calls past the check for one disk, a call and a row, and two rows of one disk belong to calls that overlapped. |
| Mappings.MappedOnceIff | worker/manager/manager.go:358-383 | After every interleaving a disk has at most one mapping iff no two of the calls that inserted one for it had overlapped. |
| Mappings.OnceWithoutOverlap | worker/manager/manager.go:358-383 | Requests that do not overlap keep one mapping per disk. |
| Mappings.AloneIsOneStep | worker/manager/manager.go:352-388 | A request that runs alone is the atomic step the other modules take it for. |
| Mappings.MappingCanDouble | worker/manager/manager.go:358-383 | For any two calls, any unmapped disk and any two known locations there is a run in which both succeed. |
| Watcher.CharacterDeviceWatcher.HalfFillHandler | worker/snapstore/character_device_watcher.go:296-318 | Adds the allocated size, sends one AddFile with that path and size and the little-endian 64-bit fill status; a failed allocation sends and adds nothing. |
| Watcher.CharacterDeviceWatcher.HandleRead | worker/snapstore/character_device_watcher.go:220-293 | One turn of the loop, per command word and from the bytes: an acknowledgement's code decides the exit, a half fill reports the new file and the fill status, an overflow its code, a terminate reports Deleted if the directory could be removed and an error otherwise. |
| Watcher.CharacterDeviceWatcher.CharDeviceReader | worker/snapstore/character_device_watcher.go:208-294 | The whole loop sends the trace of the reads, adds what the trace added, and is open iff no read ended it. |
| Watcher.DeletedIsLast | worker/snapstore/character_device_watcher.go:208-294 | Over every sequence of reads: at most one Deleted, it is the last message, and the loop has ended. |
| Watcher.DeletedIff | worker/snapstore/character_device_watcher.go:208-294 | Over every sequence of reads Deleted is sent iff the first read that ends the loop is a TERMINATE whose directory could be removed; the loop ends iff some read ends it. |
| Watcher.SilentAfterExit | worker/snapstore/character_device_watcher.go:208-294 | After the loop has ended, further device events change nothing. |
| Watcher.CounterMatchesReports | worker/snapstore/character_device_watcher.go:306-316 | The counter grows by exactly the sizes in the AddFile messages sent. |
| Watcher.FillStatusSurvives | worker/snapstore/character_device_watcher.go:296-303 | A half-fill notification with any 64-bit fill status is reported with that status. |
| WatcherRuns.TurnIsStepsOfSystem | worker/snapstore/character_device_watcher.go:208-294 | Every turn of the byte-level loop is a run of the step system's watcher with the same messages and the same growth, also while the manager is mid-addition, which is then the race the system records. |
| WatcherRuns.ReadsAreRunOfSystem | worker/snapstore/character_device_watcher.go:208-294 | From every reachable state and for every sequence of reads the step system has a run, of this watcher and the handler only, that puts exactly the loop's messages into the bounded channel in order, adds exactly its bytes, and stops iff the loop does. |
| Wire.SerializeInitiate | worker/snapstore/types.go:50-82 | Fills its buffer to the last byte, in bounds, with the initiate frame, whatever Count says. |
| Wire.SerializeNextPortion | worker/snapstore/types.go:91-118 | Likewise for the next-portion frame. |
| Wire.SerializeMultidev | worker/snapstore/types.go:127-170 | Fails iff Count differs from the number of ranges, else fills its buffer with the multi-device frame. |
| Wire.InitiateRoundTrip | worker/snapstore/types.go:50-82 | A decoder recovers every field, for any number of devices, iff Count is the number of devices. |
| Wire.NextPortionRoundTrip | worker/snapstore/types.go:91-118 | A decoder recovers every field, for any number of ranges, iff Count is the number of ranges. |
| Wire.MultidevRoundTrip | worker/snapstore/types.go:127-170 | The same, for a decoder that already knows the frame's kind. |
| Wire.InitiateLayout | worker/snapstore/types.go:50-82 | Where every field of the frame lies, byte by byte, under command word 0x21. |
| Wire.NextPortionLayout | worker/snapstore/types.go:91-118 | The same under command word 0x22. |
| Wire.MultidevLayout | worker/snapstore/types.go:127-170 | The same for the multi-device frame, under command word 0x21. |
| Wire.MultidevMistakenIff | worker/snapstore/types.go:142 | A multi-device frame also reads as an initiate frame iff the high word of its first left end is 2n - 1 for n ranges. |
| Wire.MultidevAmbiguous | worker/snapstore/types.go:142 | For a whole family of frames, both readings succeed, and what the wrong one yields. |
| Wire.Uint64OfLE64 | worker/snapstore/character_device_watcher.go:300-303 | Joining two 32-bit halves inverts the 64-bit little-endian encoding. |
| Wire.LE64OfUint64 | worker/snapstore/character_device_watcher.go:300-303 | And the other way round: every eight bytes are the encoding of what is read from them. |
| Extents.WalkFiemap | internal/util/fiemap.go:30-48 | Terminates and returns the complete extent list, each once, in order, however the kernel cuts the batches; fails only if a call failed. |
| Extents.GetFileRanges | internal/util/util.go:193-215 | One range per extent of the file, and the file's device. |
| Extents.AllocationFrame | worker/snapstore/character_device_watcher.go:168-189 | The frame written for a new file is the next-portion frame of its ranges, and only when it lies on the store's device. |
| Extents.RangesFaithful | internal/util/util.go:205-212 | The inclusive ranges cover exactly the extents' physical bytes, overlap only where extents do, and have the same total length. |
| Extents.ExtentsReachKernel | worker/snapstore/character_device_watcher.go:172-189 | What the kernel decodes from the frame stands for exactly the file's physical bytes; it decodes the portion sent iff the extent count fits 32 bits. |
| Tables.RecordFileKeeps | worker/manager/snapstores.go:242-267 | Recording a file keeps rows placed and the store's total equal to the sum of its files. |
| Tables.RecordMeans | worker/manager/snapstores.go:242-267 | The file's row at the store's location and the larger total; when it fails. |
| Tables.RecordAtLocation | worker/manager/snapstore_locations.go:117-124 | Recording a file raises the allocated capacity of its store's location by its size and that of no other location. |
| Tables.DropStoreKeeps | worker/manager/worker.go:65-78 | Deleting a store's files and its row keeps the tables' invariant. |
| Tables.NoSnapshotOfDisk | db/db.go:124-141 | An empty ListSnapshotsForDisk means no snapshot row holds the disk, orphaned volume rows or not. |
| Tables.NothingListedIff | db/db.go:124-141 | ListSnapshotsForDisk is empty iff no volume row of that disk names a snapshot row. |
| Tables.OnlySnapshotsBlock | db/db.go:124-141 | Without volume rows left over under a live ID, that is iff no snapshot row holds the disk. |
| Tables.AddSnapshotKeeps | db/db.go:156-162 | Inserting a snapshot of disks without one keeps each disk in at most one snapshot row. |
| Tables.RemoveSnapshotKeeps | db/db.go:164-191 | Removing a snapshot's rows leaves every other snapshot's volume and image rows in place. |
| Tables.LocationIsPartitioned | worker/manager/snapstore_locations.go:117-124 | What a location has allocated is the sum, over the stores there, of their recorded totals. |
| Tables.AllocatedCapacity | worker/manager/snapstore_locations.go:117-124 | The accumulating loop over a location's files returns that sum. |
| Tables.AllocatedDiskSpace | worker/manager/snapstores.go:195-211 | The accumulating loop over a store's files returns the total its row carries. |
| Decimal.ParseOfPrint | worker/manager/manager.go:695-698 | Parsing the decimal snapshot ID gives back the kernel's number, for every 64-bit number. |
| Decimal.PrintIsDecimal | worker/manager/manager.go:564-566 | The printed ID is the number's decimal digits, without leading zero. |
| Decimal.ParseIff | worker/manager/manager.go:695-698 | What is accepted: strings of digits that denote a 64-bit number. |
| Snapshots.FindNewImages | worker/manager/manager.go:599-617 | One result iff exactly one image of the device is present after and not before the ioctl, and then it is that one. |
| Snapshots.FilterFindsFirst | worker/manager/manager.go:446-453 | The lookup succeeds iff some entry has both numbers of the device, and returns the first such entry. |
| Snapshots.CreateMeans | worker/manager/snapstores.go:85-183 | From the rows: when a store can be created, where it lies, and what an attempt leaves. |
| Snapshots.EnsureMeans | worker/manager/manager.go:410-444 | From the rows: when a disk gets a store, and the store and file rows a new one brings. |
| Snapshots.RefusedIffHeld | worker/manager/manager.go:480-490 | Without volume rows left over under a live ID, a create is refused iff some snapshot row holds one of the requested disks. |
| Snapshots.CanPrepareIff | worker/manager/manager.go:493-515 | All stores can be had iff each requested disk is tracked and has a store, or is mapped to a known location and its answers are favourable and its IDs collide neither with the tables nor with an earlier store of the same request. |
| Snapshots.CanCreateIff | worker/manager/manager.go:475-680 | When CreateSnapshot succeeds, exactly, disk by disk, in terms of the volume, image and snapshot rows before and the entries of the kernel's lists. |
| Snapshots.InLoopStops | worker/manager/manager.go:577-671 | At the first failing turn what is left is the rows of the volumes before it, and its image row iff its volume ID was taken after the image went in. |
| Snapshots.RestoredIff | worker/manager/manager.go:517-550 | After a failed create the image and volume tables are as before iff the failure was before the loop, or in its first turn with no volume ID taken, or after a loop without turns. |
| Snapshots.UndoFails | worker/manager/manager.go:546-555 | A concrete input: the question after the snapshot fails and so does the undo; the kernel's snapshot stays although the loop is not reached. |
| Snapshots.CreateDeleteRoundTrip | worker/manager/manager.go:682-741 | Deleting the snapshot just created restores every table exactly but for the stores and files of its disks, which are gone; the ID parses back to the kernel's number. |
| Capture.CreatedIsTaken | worker/manager/manager.go:587-669 | A created volume's number, generation and change map are the kernel's at that moment: it is the very row the protocol's Create makes. |
| Capture.CreatedIsFound | worker/manager/manager.go:751-767 | The lookup for a disk requested once finds its volume of the created snapshot. |
| Capture.CreatedSyncs | worker/manager/manager.go:820-854 | End to end: a client that applies the ranges computed from the created volume holds, from block 1 on, the disk as it was when the snapshot was taken. |
| Manager.SnapshotManager.RecordSnapStoreFile | worker/manager/snapstores.go:242-267 | As one step: the file row and the larger total, or the error and no change. |
| Manager.SnapshotManager.HandleDeleted | worker/manager/worker.go:65-78 | As one step: exactly that store's row and the file rows naming it go, the invariant stays. |
| Manager.SnapshotManager.CreateSnapStore | worker/manager/snapstores.go:85-183 | Succeeds iff the disk is tracked, has no store, is mapped to a known location, and preparing and starting succeed; the store is empty and lies at the mapped location; which failures keep the row; at most one store per disk on every path. |
| Manager.SnapshotManager.EnsureSnapStoreForDisk | worker/manager/manager.go:410-444 | When it succeeds, exactly; returns the disk's own store; a new one has its first file recorded, with its size, at its location; what each failure leaves. |
| Manager.SnapshotManager.PrepareStore | worker/manager/manager.go:497-515 | Entering the next disk under its device disturbs none of the earlier entries: two disks never share a device. |
| Manager.SnapshotManager.PrepareStores | worker/manager/manager.go:493-515 | After the loop every requested disk is found under its own device, with its own store; succeeds iff every turn can; a failure leaves what the turns up to it made. |
| Manager.SnapshotManager.InsertVolume | worker/manager/manager.go:637-671 | Image row, volume row and map, or, after a failed map read, neither row, or, on a taken volume ID, the image row. |
| Manager.SnapshotManager.RecordVolume | worker/manager/manager.go:578-671 | Succeeds iff the kernel counted one snapshot, shows one new image and the rows can be inserted; the volume carries the map read; a failure changes nothing, but for the image row when the volume ID was taken. |
| Manager.SnapshotManager.RecordVolumes | worker/manager/manager.go:577-671 | The loop runs to its first failing turn, which the tables before and the answers determine; exactly the rows of the volumes before it are added, and that turn's stray image. |
| Manager.SnapshotManager.CheckFree | worker/manager/manager.go:480-490 | False iff some volume row of a requested disk names a snapshot row. |
| Manager.SnapshotManager.InsertSnapshot | worker/manager/manager.go:564-679 | From the kernel's snapshot to the Snapshot row, or no change to that table and the loop's leftovers. |
| Manager.SnapshotManager.TakeSnapshot | worker/manager/manager.go:528-679 | Once the kernel took the snapshot and the create failed, the snapshot stays iff the failure was in the loop over devices or the kernel refuses the undo. |
| Manager.SnapshotManager.CreateSnapshot | worker/manager/manager.go:475-680 | Keeps the invariant on every path; when it succeeds, exactly; success pairs each volume with its disk, that disk's store, the only new image and the map read; a failure leaves the Snapshot table as it was, and exactly which rows it leaves and, with a refused undo among the answers, whether the kernel's snapshot. |
| Manager.FailedCreateIsNotUndone | worker/manager/manager.go:663-671 | A concrete input: the second map read fails; the first disk's volume and image rows and the kernel's snapshot stay, with no Snapshot row. |
| Manager.SnapshotManager.RemoveSnapshotRows | db/db.go:164-191 | On consistent tables the loop never stops half-way and removes exactly the snapshot's rows. |
| Manager.SnapshotManager.CleanStores | worker/manager/manager.go:703-732 | Drops exactly the stores of the volumes before the first one that cannot be cleaned up. |
| Manager.SnapshotManager.DeleteSnapshot | worker/manager/manager.go:682-741 | When it succeeds, exactly; the rows it then removes; after a failure the snapshot tables are unchanged and exactly the stores cleaned up before it, with their files, are gone; the kernel loses exactly the parsed number once it agreed to. |
| Manager.SnapshotManager.ServeAll | worker/manager/manager.go:287-741 | Over every sequence of requests (snapshots, disks, locations, and mappings that do not overlap) and messages from consistent tables: one snapshot row per disk, one store per disk, one row per device, one mapping per disk, locations partitioned into stores; disks, locations, mappings and tracking only grow. |
| Manager.StartServeRestart | worker/manager/manager.go:92-100 | A second start-up on the same inventory and configuration, after any requests in between, changes nothing. |
| Manager.CreateThenDelete | worker/manager/manager.go:475-741 | The create and delete round trip for a client calling both, with the kernel's set of snapshots restored; succeeds when the create can and the kernel agrees to the delete. |
| Startup.DeviceIsTracked | worker/manager/initialization.go:63-73 | True iff some entry for the device has a map that is not empty. |
| Startup.ListDisks | worker/manager/manager.go:191-223 | Keeps, in order, exactly the disks that neither are nor have as a partition a CoW destination device. |
| Startup.FindAllInvolvedDevices | internal/util/util.go:62-98 | The paths of volumes that are, or whose first partition is, one of the devices, and the slaves of the virtual ones among them. |
| Startup.PathOfIsFirst | internal/storage/storage.go:496-515 | The device lookup succeeds iff some volume or partition has the number, and names the first volume that does, or its first such partition. |
| Startup.FirstAtIsFirst | worker/manager/manager.go:272-285 | The path lookup finds the first volume with that path, iff there is one. |
| Startup.BaseIsLast | worker/manager/manager.go:327-328 | A disk's ID is what follows the last slash of its path. |
| Manager.SnapshotManager.AddSnapStoreLocation | worker/manager/snapstore_locations.go:34-92 | Conflict iff a tracked disk hosts the path or it is known already, else the row, and the error cases. |
| Manager.SnapshotManager.AddTrackedDisk | worker/manager/manager.go:287-346 | When it succeeds, exactly; a failure adds no row, but may leave the disk tracked. The disk is a listed volume at the path that is no CoW destination; it is tracked unless it was; a row with its number is returned as it is, else one is added under the part of the path after the last slash; one row per device stays true. |
| Restart.MappingExact | worker/manager/manager.go:352-388 | Creating a mapping: a disk has at most one and a second is a conflict; a failure changes nothing; a success adds exactly this disk at this location, which is where the disk's store will lie. |
| Manager.SnapshotManager.Initialize | worker/manager/manager.go:92-100 | Locations, disks, mappings in this order; only conflicts over locations and mappings are passed over. |
| Restart.RestartChangesNothing | worker/manager/initialization.go:75-135 | After a successful start-up, another on the same inventory and configuration changes no table and no tracking, whatever UUIDs are drawn and the kernel answers, also after more rows were added; it succeeds iff the kernel lists its devices. |
| Restart.StartupExact | worker/manager/initialization.go:97-135 | The whole effect: locations gain exactly the destinations no tracked disk hosts, rows and kernel tracking gain exactly the devices of the eligible physical disks. |
| Restart.WithoutAutoInit | worker/manager/initialization.go:75-100 | Without automatic initialisation only the locations no tracked disk hosts are added. |
| Restart.StartUpFindsIDs | worker/manager/manager.go:321-341 | When the last elements of the disks' paths are distinct and not taken, and nothing outside stands in the way of a disk, start-up can only fail over locations or mappings. |
| Restart.RowsAreNamed | worker/manager/manager.go:321-341 | Every row start-up adds is that of a listed disk, under the last element of its path. |
| Restart.NewlyTrackedIsEligible | worker/manager/manager.go:197-219 | Every newly tracked device is that of a listed volume that is not excluded, at the path of a physical disk that is not excluded. |
| Restart.DestinationsStayUntracked | worker/manager/manager.go:197-219 | A disk that is, or has as a partition, a CoW destination is not newly tracked, unless the list gives its number to another volume too. |
| Restart.FirstMappingWins | worker/manager/initialization.go:75-93 | Of several configured mappings of a disk the first one counts. |
| Restart.StartupKeepsValid | worker/manager/manager.go:300-388 | Whether start-up succeeds or stops half-way, the tables' invariant holds. |

## Left out

- HTTP controllers, routers, TLS, configuration parsing, logging, system information, install scripts: plumbing.
- ioctls, cgo, udev, sysfs, fallocate, bbolt: environment answers passed in, with the contracts above.
- Overflow marking of volume snapshots: rows are inserted before their store is set (worker/manager/manager.go:651, 669), so the lookup at db/db.go:216-222 does not find them; the volumes' status field is not modelled.
- `AddCapacityToSnapStore` (worker/manager/snapstores.go:269-335): not called by the agent.
- Exclusion of every disk behind a CoW destination: not true of the code, which looks at a disk's first partition only and does not follow device-mapper slaves transitively.
- The 20 percent initial allocation (worker/snapstore/character_device_watcher.go:141) is floating point; the size is an arbitrary input.
- Storage usage in the snap store listings (worker/manager/snapstores.go:42-80) comes from the kernel and is not modelled; capacity and free-space figures of a location likewise.
- cleanStorage and the removal of a half-initialised database file (worker/manager/manager.go:76-91): file system only.
- Sector sizes and device capacities in rows: copied, never computed with.
- Increments.FetchIncrements: Go's 64-bit int is unbounded here; every value is at most map length times block size.
- Tables.AllocatedCapacity: sums of sizes do not wrap at 2^64.
- Manager.SnapshotManager.AddTrackedDisk: requires consistent tables, which every operation keeps; that rows have names is what lets the source compare with a zero record.
- Manager.SnapshotManager.CreateSnapshot: the cleanup ioctls its deferred function sends after a late failure reach only the kernel and are left to Lifecycle.
- Manager.SnapshotManager.RecordVolume: of a failure it says which rows stay, not which error text is returned; the udev device status, which is only logged, is not read.
- Manager.SnapshotManager.ServeAll: snapshots and disks are one step each, as under m.mux; the handler's recordings and the mapping requests do not take it, and interleave in Lifecycle, Recorders and Mappings. Locations are added at start-up only, before anything is served. A kernel answer that reuses a snapshot number in use is taken not to happen.
- Reuse.RowIsThereToStayIff: says nothing of a store whose reader loop has ended without a Deleted message; its row stays until a delete of its snapshot.
- Lifecycle.SpaceIsConserved: file IDs are a store and a serial number instead of a path with a fresh UUID.
- Lifecycle.RunFinal: a manager operation is a sequence of its database calls and ioctls on stores; its snapshot tables are in Manager, where operations are atomic.
- Whether a UUID string parses is an oracle.
