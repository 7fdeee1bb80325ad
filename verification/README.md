# FeOS disk store, memory restore and trace layout, verified

FeOS keeps a pod's disk as a chain of immutable, content-addressed layers under
one mutable sparse file, restores a guest's memory page by page from a flat
layer of the same kind, moves layers to and from an object store that a sweep
collects, and draws traces of what it does. This project models that logic in
Dafny and proves what it promises. `dafny verify dfyconfig.toml` checks it all.

- **Layers and seals** (`Manifests`, `ManifestCodec`, `Layers`, `Tops`, `Seal`,
  `SealTheorems`, `SealFile`, `DiskRuns`, `ReadPath`): what a chain shows, the
  seal of a top into a new layer, its commit steps with a crash after any of
  them, whole lives of disks, and the readers of the same view.
- **The chunk cache** (`CacheBudget`, `CacheOrder`, `CacheActor`, `CacheRuns`, `Pins`):
  the budget actor as a function of its messages, with the lengths, the order of
  use and the evictions that come of it, as the object that updates its fields,
  and among the threads that race with it, and the choice of what to pin.
- **Memory restore** (`RemovedPages`, `UffdFill`, `UffdServe`, `UffdRuns`): the
  bitmap of released pages, the fill loop against a kernel that may do part of
  the work, the service of one fault, and whole lives of guests.
- **The object store** (`StoreKeys`, `SweepPlan`, `Sweep`, `SweepPasses`,
  `SweepTheorems`, `Push`, `PushRuns`, `PushNode`, `PushSweep`, `PinSweep`,
  `DiskLocks`): keys, the three passes of a sweep and what of the store they keep
  and delete, uploads with crashes anywhere as a step machine, the node's methods
  and its sweep as runs of it, what a sweep does to the pins, and the table of disk
  locks.
- **Traces** (`TraceRows`, `TraceShape`, `TraceLines`, `TraceFolds`, `TracePath`,
  `TraceSelf`): the waterfall's rows and lines, what folds hide, the critical path,
  self time and waiting time.
- **Credentials** (`Fetch`): when a pod's feos-authn asks for them.
- `Arithmetic`, `Sorting`, `Lists` and `Wrappers` serve the others.

Objects whose methods update fields are classes whose methods are tied to
functions on values; protocols are state machines whose runs interleave their
steps in every order. Random choices in methods (`*`) stand for the kernel, the
network, the object store, cancelled calls and crashes. Flags such as `mayFail`
say that these may go wrong, so that a method's contract also says what it does
when nothing does.

## Hypotheses

- Hashing is collision-free on the chunks and manifests considered, and
  compression is a function of its input. A digest is the bytes it was made
  from; a layer's id is the layer. `ManifestCodec` proves the bytes hashed into
  a layer id determine the layer.
- The layers of a chain share chunk size and disk size, and each one's parent is
  the layer before it.
- A top is bytes with an allocation bit each. The file system allocates whole
  blocks, and holes read as zeros. Runs of a disk write and discard whole
  blocks; the device's sectors are 512 bytes, and for writes that are not whole
  blocks the exact condition is proved instead.
- No other disk names the private layer a seal replaces.
- Computing the pin set from the rows and markers is one step. No chunk file is
  unlinked but by the actor, and an unlink succeeds, as does the removal of a
  marker.
- A read or write of the top moves all it is asked for, or fails; a single write
  may also take a front and say so.
- Marking released pages and serving one fault are single steps. The regions of
  a guest's memory are page-aligned and share neither host addresses nor parts
  of the image, and chunks are whole pages.
- A node's copy of a manifest is the bucket's. Nobody but the sweep changes the
  bucket while it runs.
- Uploads are of one node, with an object store configured; sweeps come between
  uploads.
- The table of disk locks is never poisoned.
- Span ids of a trace are distinct. They are numbers here, 0 for none; the order
  of numbers stands for that of the strings.
- feosd answers each request at most once, on its own connection.

## Where the code falls short of its promise

Each is shown at an input, and proved with the exact condition under which the
promise holds.

- Sealing remembers history when the shared prefix has a data chunk of zeros
  (`SealTheorems.ZeroChunkIsRemembered`, `SealTheorems.HistoryIndependentIff`).
  Seals never make such a chunk.
- A write that is not made of whole blocks can change what the guest sees beside
  it (`ReadPath.SectorWriteHidesBlock`, `Tops.WriteChangesItsRange`).
- A sweep whose chunk deletes partly fail returns before it removes any marker.
  The markers of what it did delete stay, and the next upload trusts them
  (`PushRuns.FailedSweepThenPush`, `PushRuns.SweepSafeIff`).
- A sweep whose layer deletes partly fail returns before it removes the layers'
  markers and refreshes the pins. A row's layer that is gone from the bucket then
  still counts as uploaded, and its chunks are not pinned
  (`PinSweep.StoppedSweepUnpins`, `PinSweep.StoppedCoversIff`).
- A chunk's key is documented to carry its hash's first byte as the shard. The
  parser takes any front of the hash, also an empty one
  (`StoreKeys.EmptyShardIsTaken`, `StoreKeys.ChunkKeyIff`,
  `StoreKeys.OwnShardIff`). The model follows the parser.
- A comment in `expand_parents` says that skipping an unreadable manifest only
  keeps more. It also leaves that manifest's parent unnamed, and the pass then
  deletes it (`SweepPasses.UnreadLayerLosesParent`, `Sweep.AllReachedIff`,
  `SweepPasses.UsedLayersStayIff`).

## Model

| member | source | states |
|---|---|---|
| `Manifests.EntryAt` | crates/disk-store/src/manifest.rs:167-172 | The binary search finds exactly what the table, read as a map from offset to entry, has at the offset, and nothing where the map has nothing. |
| `Manifests.Resolve` | crates/disk-store/src/manifest.rs:176-185 | The search from the newest layer down gives the newest layer's entry for the chunk, or none if no layer has one. |
| `Manifests.ResolvedIsFlattened` | crates/disk-store/src/manifest.rs:174-185 | Newest-first lookup is lookup in the overlay of all the layers' maps, oldest first. |
| `Manifests.SortedTablesEqual` | crates/disk-store/src/manifest.rs:118-127 | Two strictly sorted entry tables with the same map are the same sequence: a layer's id depends on what it says, not on how it was built. |
| `Layers.ChunkOfByte` | crates/disk-store/src/chunk.rs:59-68 | Every byte of the disk lies in exactly the chunk its offset rounds down to, within that chunk's length, short last chunk included. |
| `Layers.ChunkIndex` | crates/disk-store/src/chunk.rs:59-68 | The chunk count is the number of chunk offsets below the disk's size, in both directions. |
| `ManifestCodec.EntryRoundTrip` | crates/disk-store/src/manifest.rs:253-281 | An entry that fits its field widths encodes to 52 bytes that decode to it. |
| `ManifestCodec.EntryIsLaidOut` | crates/disk-store/src/manifest.rs:253-262 | The 52 bytes of an entry: its offset at byte 0, its kind at 8, zeros at 9 to 11, its hash at 12, its raw length at 44 and its compressed length at 48, each number's k-th byte its k-th digit to the base 256. |
| `ManifestCodec.EntryReadIff` | crates/disk-store/src/manifest.rs:264-281 | Reading 52 bytes gives an entry of a known kind exactly if that entry is laid out there. |
| `ManifestCodec.Encode` | crates/disk-store/src/manifest.rs:187-201 | The buffer built step by step is the manifest's file, byte by byte: magic, version 1 at byte 8, zero flags at 12, chunk size at 16, entry count at 20, disk size at 24, the parent's id or zeros at 32, and from 64 on 52 bytes for each entry in order. |
| `ManifestCodec.Decode` | crates/disk-store/src/manifest.rs:203-250 | Succeeds exactly on the file of a manifest with increasing offsets, whatever the bytes that mean nothing are, and gives that manifest; each error tells what is wrong, first of all a short header, then the magic. |
| `ManifestCodec.RoundTrip` | crates/disk-store/src/manifest.rs:187-250 | Every well-formed manifest's encoding is accepted, and the manifest it decodes to is that one and no other. |
| `ManifestCodec.DecodedIffLayout` | crates/disk-store/src/manifest.rs:187-250 | For every buffer and manifest: the buffer decodes to the manifest exactly if it is the manifest's file by the layout and the offsets increase. |
| `ManifestCodec.PreimageIsLaidOut` | crates/disk-store/src/manifest.rs:155-164 | What is hashed into a layer's id: the disk's size at byte 0, the chunk size at 8, the parent's id or zeros at 12, and from 44 on the entries as in the file. |
| `ManifestCodec.LayerIdInjective` | crates/disk-store/src/manifest.rs:155-164 | Equal hash inputs have equal size, chunk size, parent and entries: with a collision-free hash, equal layer ids mean equal layers. |
| `Tops.DataExtents` | crates/disk-store/src/seal.rs:101-127 | The extents are the maximal runs of allocated bytes below the length, in order, and their union is exactly the allocated bytes. |
| `Tops.WriteChangesItsRange` | crates/diskd/src/dev.rs:481-498 | A write into the sparse top changes exactly its range of what the guest sees if and only if the holes around it, in the blocks the file system allocates for it, show zeros. |
| `Tops.AlignedEdges` | crates/diskd/src/dev.rs:481-498 | A write of whole blocks, or of blocks up to the end of the disk, meets that condition whatever is below. |
| `ReadPath.SectorWriteHidesBlock` | crates/diskd/src/dev.rs:289-291 | The condition is needed: for every block size that is a larger multiple of a sector, every 512-byte sector written into a hole hides each nonzero byte the chain has in the rest of that block, so the guest sees more change than it wrote. |
| `ReadPath.SectorInBlock` | crates/diskd/src/dev.rs:289-291 | Such disks exist under every such block size, for a sector anywhere in the block. |
| `ReadPath.SectorInPhysicalBlock` | crates/diskd/src/dev.rs:289-291 | So they do for the 512-byte sectors and 4096-byte blocks the device has. |
| `Seal.OverlayExtents` | crates/disk-store/src/seal.rs:164-186 | The buffer holds the top's bytes where the extents are, and the given base, padded with zeros, elsewhere. |
| `Seal.TouchedChunks` | crates/disk-store/src/seal.rs:398-408 | The chunk numbers, strictly increasing, are exactly those of chunks with an allocated byte. |
| `Seal.Compose` | crates/disk-store/src/seal.rs:419-440 | A touched chunk is composed to the top's allocated bytes over the whole old chain; it fails only on an I/O error, or if a data chunk of the chain can be had nowhere. |
| `Seal.AllHadIsAvailable` | crates/disk-store/src/seal.rs:419-440 | With every data chunk of every layer of a chain to be had, no chunk of it can be missing. |
| `Seal.Pending.Flush` | crates/disk-store/src/seal.rs:233-242 | What was handed on is kept by the node or still pending, also when the admission fails halfway; a flush that is neither cancelled nor failed leaves nothing pending. |
| `Seal.Pending.Push` | crates/disk-store/src/seal.rs:225-231 | A chunk pushed is kept or pending, and none pushed before is lost. |
| `Seal.TouchedEntries` | crates/disk-store/src/seal.rs:419-497 | The entries are exactly those classification gives the touched chunks, strictly sorted, and each new data chunk is kept or pending. |
| `Seal.Flatten` | crates/disk-store/src/seal.rs:499-509 | The merged private layer's entries of untouched chunks join the new ones, sorted by offset, without loss or repetition. |
| `Seal.SealTop` | crates/disk-store/src/seal.rs:350-530 | The layer is the one the specification function gives for the prefix, the merged layer and the top; it is committed only after its new chunks are kept, under a hold after every touched data chunk was admitted, pool hits included; an I/O error is reported only if the node's files may fail, and after one or a cancellation nothing is committed; a bad merge is refused exactly when the merged layer is not the chain's last or has another shape. |
| `SealTheorems.SealPreservesView` | crates/disk-store/src/seal.rs:362-530 | For every chain, merged layer and top, the shared prefix with the new layer shows the top over the old chain; the new table is well formed and its parent is the last shared layer. |
| `SealTheorems.SealedEntryIs` | crates/disk-store/src/seal.rs:470-495 | A data entry of a touched chunk carries the hash, the length and the compressed length of the bytes the disk has there. |
| `SealTheorems.SealKeepsAvailable` | crates/disk-store/src/seal.rs:419-520 | If every chunk that the prefix and the old chain show can be had, and the touched ones are kept, every chunk that the prefix with the new layer shows can be had. |
| `SealTheorems.ResealIsSame` | crates/disk-store/src/seal.rs:499-520 | Sealing a leftover top again over the layer made from it makes that same layer. |
| `SealTheorems.UntouchedIsSame` | crates/disk-store/src/seal.rs:499-509 | A top nothing was written to seals to the private layer it merges. |
| `SealTheorems.SealIsCanonical` | crates/disk-store/src/seal.rs:419-509 | Over a prefix without all-zero data chunks, the sealed layer is a function of the prefix and the disk's bytes alone. |
| `SealTheorems.SealIsSmallest` | crates/disk-store/src/seal.rs:419-497 | No layer over the prefix that shows the same disk has an entry fewer. |
| `SealTheorems.HistoryIndependentIff` | crates/disk-store/src/seal.rs:419-497 | Sealing depends on the disk's content alone if and only if no data chunk of the shared prefix is all zeros. |
| `SealTheorems.ZeroChunkIsRemembered` | crates/disk-store/src/seal.rs:442-461 | Where the prefix has such a chunk, zeros written over it leave an entry that an untouched disk with the same bytes has not. |
| `SealTheorems.SealedNonzero` | crates/disk-store/src/seal.rs:442-497 | A seal never makes an all-zero data chunk, so sealed prefixes meet the condition. |
| `SealFile.SealWhole` | crates/disk-store/src/seal.rs:537-603 | The flat layer of a file has an entry for every chunk, its data chunks are kept before it is committed, and it is the layer of the file's content; after any I/O error no layer is committed. |
| `SealFile.FlatEntries` | crates/disk-store/src/seal.rs:562-585 | Every chunk of a file has its entry: zero if the chunk is all zeros, else with its hash and lengths. |
| `SealFile.FlatShows` | crates/disk-store/src/seal.rs:532-603 | The flat layer alone shows the file's bytes. |
| `SealFile.SameFileSameLayer` | crates/disk-store/src/seal.rs:532-603 | Two files, of whatever lengths, make the same layer id exactly if they have the same content. |
| `DiskRuns.SealCrashSafe` | crates/diskd/src/svc.rs:1294-1418 | After each number of commit steps (manifest, row, top deleted, replaced manifest deleted) the row's layers are there, the content is unchanged, at most one layer is the disk's own, and the disk is sound. |
| `DiskRuns.SealCommits` | crates/diskd/src/svc.rs:1362-1410 | A seal that lives leaves a row with the same shared layers and the new one on them, no top, and of the manifests it added the new one and removed the replaced one alone. |
| `DiskRuns.SealStaysReadable` | crates/diskd/src/svc.rs:1362-1410 | So it is with the row's chain after each number of commit steps. |
| `DiskRuns.SealAgainIsSame` | crates/diskd/src/svc.rs:1294-1418 | A seal repeated after a crash before the top's deletion makes the layer the first one made. |
| `DiskRuns.OwnIsNotShared` | crates/diskd/src/svc.rs:1402-1410 | The replaced private layer is none of the shared ones, so its manifest's deletion takes no layer the row names. |
| `DiskRuns.DiskService.SealDisk` | crates/diskd/src/svc.rs:1257-1418 | The service's seal goes through exactly those steps and stops before the last only by the node's death, at the step it died at; done, the row is the shared layers and the one returned and the top is gone; it refuses exactly a chain with more than one own layer and an empty chain without a top, fails only by its causes and then changes nothing, and wherever it stops leaves the row's chunks to be had if those of the old chain and its prefix were. |
| `DiskRuns.RunIsAnArray` | crates/diskd/src/svc.rs:1294-1418 | Through every run of opens, block-aligned writes and discards and seals cut short anywhere, the disk behaves as a plain array of bytes. |
| `DiskRuns.SameBytesSameLayer` | crates/disk-store/src/seal.rs:419-509 | Two disks over the same prefix that end any two runs with the same bytes seal to the same layer. |
| `DiskRuns.SameBytesSameOwn` | crates/disk-store/src/seal.rs:419-509 | If they end them sealed, with layers of their own, those are the same layer. |
| `DiskRuns.RestingIsSealed` | crates/disk-store/src/seal.rs:419-509 | The layer of a sealed disk is the one that a disk with the same bytes and a top seals to. |
| `DiskRuns.NewDiskIsSound` | crates/diskd/src/svc.rs:243-257 | A new disk over linked, sealed layers that are there is sound. |
| `ReadPath.SplitSpans` | crates/diskd/src/dev.rs:500-558 | A request is tiled, in order and without gaps, by what the top has and what the chain has. |
| `ReadPath.ReadChain` | crates/diskd/src/dev.rs:584-636 | Reading chunk by chunk gives the chain's view of the range; it fails only for an empty chain or a chunk that can be had nowhere. |
| `ReadPath.Device.ReadIo` | crates/diskd/src/dev.rs:500-558 | Every in-range read that succeeds returns the overlay view, cut at the end of the disk; out of range is refused, exactly then; with readable files it fails only for an empty chain or a chunk that can be had nowhere. |
| `ReadPath.Device.WriteIo` | crates/diskd/src/dev.rs:481-498 | A write goes to the top alone; of what the file took, all or a front, exactly its range changes if and only if the holes around it show zeros; a write that fails changes nothing; with a file that does not fail, an in-range write is taken whole. |
| `ReadPath.Device.ZeroWriteIo` | crates/diskd/src/dev.rs:755-779 | A discard's range reads zero afterwards, never the parent's data; an aligned one changes nothing else; one that fails has written the zeros of some front of its range; with a file that does not fail, an in-range one succeeds. |
| `ReadPath.Materialize` | crates/disk-store/src/materialize.rs:22-66 | The dump equals the chain's view; a chain is refused exactly if it is empty or its layers differ in shape. |
| `CacheBudget.PlaceKeeps` | crates/disk-store/src/cache.rs:401-415 | Placing a chunk keeps list and pinned set disjoint and the counters their sums, and accounts for that chunk and no other. |
| `CacheOrder.PlaceCounts` | crates/disk-store/src/cache.rs:401-415 | The chunk counts with the length it came with, and every other chunk with the length it had. |
| `CacheBudget.EvictTakesShortestPrefix` | crates/disk-store/src/cache.rs:448-490 | Eviction takes exactly the shortest prefix, in order of use, of the chunks outside the spared set that reaches the goal, or all of them. |
| `CacheBudget.HandleKeeps` | crates/disk-store/src/cache.rs:504-579 | Every message keeps the invariant: pinned is exactly the present wanted chunks, counters are sums, no evicted chunk is wanted, nothing else is forgotten, and evictable bytes are within budget after every admission, pin and release. |
| `CacheOrder.HandleCounts` | crates/disk-store/src/cache.rs:504-579 | For every message, chunk and length: the actor counts or evicts the chunk with that length exactly if it came with it in the message, or counted with it and is neither admitted again nor removed. |
| `CacheOrder.HandleTotal` | crates/disk-store/src/cache.rs:401-579 | Bytes are conserved: those in the list, pinned and evicted are those before, plus the length of the chunk that came, minus what it or the removed chunk counted. |
| `CacheOrder.RunCounts` | crates/disk-store/src/cache.rs:504-579 | Over every run, the actor counts a chunk with a length exactly if it last came with that length and has been neither removed nor evicted since. |
| `CacheOrder.HandleOrder` | crates/disk-store/src/cache.rs:401-490 | Chunks a message does not use stay in their order of use; the one it admits or touches, and those that lose their pin, come behind them; what it evicts was used before all it leaves, spared chunks aside. |
| `CacheOrder.HandleEvicts` | crates/disk-store/src/cache.rs:524-579 | Evicting all goes down to nothing, any other eviction to the budget; nothing asked to be spared goes, the goal is met unless only spared chunks are left, the last to go had to, and no other message evicts. |
| `CacheOrder.HandleHolds` | crates/disk-store/src/cache.rs:524-579 | A pin replaces the pins; a hold adds its chunks to its own; a release ends that hold; nothing else changes either. |
| `CacheOrder.ProtectedStays` | crates/disk-store/src/cache.rs:395-444 | A chunk that was there or came, and is pinned or held, is among the pinned ones: neither evicted nor in the list. |
| `CacheActor.Actor.PlaceChunk` | crates/disk-store/src/cache.rs:401-415 | Updates the fields to the value the specification gives: the chunk counts with its length, every other with the one it had. |
| `CacheActor.Actor.PinChunks` | crates/disk-store/src/cache.rs:418-426 | The loop over the hashes moves exactly those of the list that are named into the pinned set. |
| `CacheActor.Actor.UnpinUnwanted` | crates/disk-store/src/cache.rs:430-444 | Every pinned chunk nobody wants goes back to the list once, none other. |
| `CacheActor.Actor.DropOldest` | crates/disk-store/src/cache.rs:448-470 | Evicts the least recently used chunk outside the spared set, unlinks its file, and re-queues those it skipped. |
| `CacheActor.Actor.EvictUntil` | crates/disk-store/src/cache.rs:474-490 | The loop evicts the chunks the specification names and reports their number and bytes. |
| `CacheActor.Actor.Handle` | crates/disk-store/src/cache.rs:504-579 | One message takes the fields from one sound state to the next, unlinks exactly the files of what it evicts and counts their number and bytes; each chunk counts, or is evicted, with the length it had, or came with. |
| `CacheRuns.StepKeeps` | crates/disk-store/src/cache.rs:223-305 | Every step of every admitter, sealer and evictor, of the actor, and of the unlinking of single files keeps the world sound. |
| `CacheRuns.HeldChunkStays` | crates/disk-store/src/cache.rs:261-305 | In every interleaving, a chunk a batch has handled under a hold has its file until the hold's release is handled. |
| `CacheRuns.PinBeforeReleaseSecures` | crates/diskd/src/svc.rs:1413-1417 | A pin set that names the chunk, sent before the hold is dropped, makes it secure. |
| `Pins.PinnedRowChunks` | crates/diskd/src/svc.rs:892-918 | The pin set is exactly the data chunks of the layers that, in some row, are not marked as uploaded, or are the disk's own while no head names it, as far as their manifests are there. |
| `Pins.SealedLayerIsPinned` | crates/diskd/src/svc.rs:1301-1305 | From the commit of a seal's row on, with the disk marked unheaded before, the new layer is one of those, uploaded or not. |
| `Pins.SealedChunkIsSecure` | crates/diskd/src/svc.rs:1411-1417 | So the pin set computed after the commit and sent before the hold is dropped makes every admitted chunk of the new layer secure. |
| `Pins.MergedChunkIsPinned` | crates/diskd/src/svc.rs:892-918 | After each number of a seal's commit steps, a chunk that the replaced layer and the new one both have is pinned. |
| `Pins.MergedChunkStays` | crates/diskd/src/svc.rs:1294-1417 | In every interleaving, such a chunk, once secure, keeps its file through the whole seal, whatever is evicted and wherever the seal stops. |
| `CacheRuns.SecureChunkStays` | crates/disk-store/src/cache.rs:395-579 | In every interleaving, a secure chunk keeps its file past the hold, until a pin set without it is handled. |
| `CacheRuns.NoFileIsForgotten` | crates/disk-store/src/cache.rs:223-305 | Once all that was sent is handled, every file is pinned because it is wanted, or counts against the budget. |
| `RemovedPages.Bitmap.IsSet` | crates/diskd/src/uffd.rs:193-197 | The bit test answers membership in the set of released pages; false outside the image. |
| `RemovedPages.Bitmap.Mark` | crates/diskd/src/uffd.rs:202-222 | The released set grows by exactly the pages of the image the host range covers, region by region, and the number returned is that of the pages added. |
| `RemovedPages.InRangeIsBytes` | crates/diskd/src/uffd.rs:202-222 | A page is of the range in a region exactly if it holds a byte that the region has in the host range, whatever the alignment. |
| `RemovedPages.Bitmap.Clear` | crates/diskd/src/uffd.rs:227-236 | Exactly the pages met every page size from the first bound up to the second leave the set, whatever the bounds. |
| `RemovedPages.AlignedVisits` | crates/diskd/src/uffd.rs:227-236 | Between two page boundaries those are all the pages of the range. |
| `UffdFill.Memory.Fill` | crates/diskd/src/uffd.rs:886-975 | Against any kernel: on success every page of the range is present and nobody waits for one, those stepped over included; always, pages present before are unchanged, added ones hold the source or zeros, and nobody is woken but for a page of the range that is there; it ends under the budget for being told to come again, fails for that only once the budget is spent, and otherwise only by an error of the kernel's. |
| `UffdFill.Memory.Backoff` | crates/diskd/src/uffd.rs:857-867 | Gives up exactly once the budget is spent; after the free attempts each wait takes at least the step. |
| `UffdServe.FindRegion` | crates/diskd/src/uffd.rs:1012-1017 | Finds the region that has the page, or none if none has. |
| `UffdServe.ServeRuns` | crates/diskd/src/uffd.rs:713-746 | The runs of like pages together serve the range: each missing page gets zeros if it was released, else the snapshot's bytes, the marks of the range are cleared, and nobody waits for its pages; an error in between leaves only such pages, clears no mark but of a page of the range that is there, and wakes nobody too early. |
| `UffdServe.ServeFault` | crates/diskd/src/uffd.rs:666-751 | A fault answered leaves the faulting page's chunk, clipped to its region, present and right, and nobody waiting for a page of it; answered or not, pages present stay as they were, pages added are of that chunk and right, marks cleared and threads woken are of its pages that are there; a fault outside every region is fatal and changes nothing; one inside is answered unless the kernel fails or the chunk cannot be had. |
| `UffdRuns.StepKeeps` | crates/diskd/src/uffd.rs:583-586 | Each fault, answered or failed halfway, guest write and release leaves every present page with what the guest is owed, and every missing one owed what the next fault will put there. |
| `UffdRuns.MarksOfRange` | crates/diskd/src/uffd.rs:202-222 | A release marks exactly the pages of the image that the released host pages map to. |
| `UffdRuns.RunKeeps` | crates/diskd/src/uffd.rs:666-751 | Over every run, a present page holds its last write since it was released or restored, else zeros if it was ever released, else the snapshot. |
| `UffdRuns.FaultIsAnswered` | crates/diskd/src/uffd.rs:666-751 | The page that faulted is present once its fault is served, and nobody waits for it. |
| `UffdRuns.AnswerIsChunk` | crates/diskd/src/uffd.rs:666-751 | After an answered fault, of each page of each region: if it is of the same region and chunk it is present, nobody waits for it and, in a data chunk, it is not marked; every other page is as it was. |
| `UffdRuns.WokenFindsPage` | crates/diskd/src/uffd.rs:868-885 | Over every run, a thread that waits for a page is woken only with the page there, holding what the guest is owed. |
| `StoreKeys.SnapshotKeyIs` | crates/disk-store/src/sweep.rs:44-52 | A checkpoint's key is determined by the epoch and file it parses to. |
| `StoreKeys.SnapshotKeySplits` | crates/disk-store/src/sweep.rs:44-52 | Every key built from a non-empty id, epoch and file parses back to them. |
| `StoreKeys.EpochIs` | crates/disk-store/src/sweep.rs:44-52 | The epoch of every key that parses is a name and a number, neither empty nor with a slash. |
| `StoreKeys.HeadKeyOf` | crates/disk-store/src/head.rs:78-85 | snapshots/id/epoch/head.json is a head's key exactly if neither part is empty and the epoch is all digits. |
| `StoreKeys.HeadKeyIs` | crates/disk-store/src/head.rs:78-85 | Every head's key is of that form. |
| `StoreKeys.HeadKeySplits` | crates/disk-store/src/head.rs:78-85 | A head's key is its epoch's head.json for the sweep as well. |
| `StoreKeys.LayerKeySplits` | crates/disk-store/src/sweep.rs:55-57 | A layer's key parses back to its id. |
| `StoreKeys.ChunkKeySplits` | crates/disk-store/src/sweep.rs:60-69 | A chunk's key parses back to its hash. |
| `StoreKeys.ChunkKeyIff` | crates/disk-store/src/sweep.rs:60-69 | A key parses as a chunk if and only if it is the chunk's 64-digit hash behind a shard that is some front of that hash. |
| `StoreKeys.OwnShardIff` | crates/disk-store/src/sweep.rs:60-69 | Such a key is the one the hash is stored under exactly if the front has two digits. |
| `StoreKeys.EmptyShardIsTaken` | crates/disk-store/src/sweep.rs:60-69 | A key with an empty shard, which no chunk is stored under, parses as that chunk all the same. |
| `SweepPlan.YoungIff` | crates/disk-store/src/sweep.rs:74-76 | The saturating subtraction never changes whether an object is inside the grace. |
| `SweepPlan.PlanSnapshots` | crates/disk-store/src/sweep.rs:83-121 | An object is planned exactly if its epoch's head is not named, or not there, and nothing of the epoch is inside the grace; the heads returned are exactly those of the other epochs. |
| `SweepPlan.WholeEpochs` | crates/disk-store/src/sweep.rs:78-82 | An epoch is planned whole or not at all. |
| `SweepPlan.PlanById` | crates/disk-store/src/sweep.rs:126-173 | A manifest, or a chunk, is planned exactly if its id is not named and it is not inside the grace. |
| `Sweep.SharedDepthFits` | crates/disk-store/src/head.rs:116-181 | A valid head shares as many layers as it says, at least one; one that does not say shares its whole chain; none shares more. |
| `Sweep.VolumesAreHeads` | crates/disk-store/src/head.rs:172-178 | A valid head's volumes are keys the first pass recognises as heads. |
| `Sweep.ExpandParents` | crates/diskd/src/svc.rs:607-633 | The worklist ends with exactly the transitive closure over the parents of the manifests that could be read, each new id once, whatever cycles the parents make. |
| `Sweep.AllReachedIff` | crates/diskd/src/svc.rs:616-623 | It finds all that the whole store reaches if and only if each manifest it reached and could not read has its parent reached some other way. |
| `SweepPasses.SweepSnapshots` | crates/diskd/src/svc.rs:1949-1976 | Pass 1, with any deletes failing, deletes only past the grace and only epochs no wanted head is of; done, it leaves only wanted epochs and those with something inside the grace; it is done if nothing fails and the named heads can be read. |
| `SweepPasses.SweepLayers` | crates/diskd/src/svc.rs:1977-2030 | Pass 2, with any deletes failing and any manifests unreadable, deletes no layer that is named or an ancestor of one by manifests that were read; done, every layer left is in use in that sense or inside the grace, and no deleted layer is marked as uploaded; not done, every marker is where it was. |
| `SweepPasses.FoundParentsStay` | crates/diskd/src/svc.rs:607-633 | With the parents of unread manifests found, no layer that is named or any ancestor of one goes. |
| `SweepPasses.UsedLayersStayIff` | crates/diskd/src/svc.rs:607-633 | For a pass that is done over chains that are whole and past the grace: every layer in use stays if and only if the expansion found the parents of the manifests it could not read. |
| `SweepPasses.UnreadLayerLosesParent` | crates/diskd/src/svc.rs:616-623 | For every named layer whose manifest cannot be read and whose parent nothing else names, a pass that is done has deleted exactly the parent. |
| `SweepPasses.SweepChunks` | crates/diskd/src/svc.rs:2031-2061 | Pass 3 deletes no chunk of a manifest in the bucket, and stops at one it cannot read; done, every chunk left is of one or inside the grace. |
| `SweepPasses.ManifestHasChunks` | crates/diskd/src/svc.rs:2045-2054 | Those are the chunks every readable manifest in the bucket names, also where the node's copy is read in its place. |
| `SweepPasses.Unmark` | crates/diskd/src/svc.rs:2063-2074 | Exactly the markers of the chunks, or of the layers, whose keys were deleted go. |
| `SweepPasses.RunSweep` | crates/diskd/src/svc.rs:1949-2074 | Wherever a sweep stops: wanted checkpoints stay whole, layers reachable, by manifests that were read, from a named layer or a head that is left stay, chunks of every manifest that is left stay, nothing inside the grace goes, and only markers of chunks no layer has and of layers that are not there do; a sweep that runs through leaves nothing else of the three kinds, and no marker of a deleted chunk or layer; it runs through if nothing fails and every head and manifest can be read. |
| `SweepPasses.SweepKeepsChains` | crates/diskd/src/svc.rs:607-633 | With the parents of unread manifests found, every layer that is named or any ancestor of one stays through a whole sweep. |
| `SweepPasses.StoreParsersOk` | crates/disk-store/src/sweep.rs:44-69 | The store's own keys have the properties the passes rest on: one key per object, no key of two kinds, each under its prefix. |
| `SweepPasses.SweepStore` | crates/diskd/src/svc.rs:1893-2074 | The same with the store's keys and the grace, for every bucket, live set and clock. |
| `SweepTheorems.SoundIsReadable` | crates/diskd/src/svc.rs:1949-2061 | A store in which each head.json, and each head the caller names, is a valid head, and each layer's manifest is one or the node has a copy, can be swept through. |
| `SweepTheorems.YoungStays` | crates/disk-store/src/sweep.rs:74-76 | Wherever the sweep stops, an object younger than the grace stays. |
| `SweepTheorems.OthersStay` | crates/disk-store/src/sweep.rs:44-69 | So does every object under none of the three prefixes. |
| `SweepTheorems.NamedCheckpointStays` | crates/diskd/src/svc.rs:1949-1976 | So does every object of a checkpoint whose head.json the caller names and the bucket has. |
| `SweepTheorems.VolumeCheckpointStays` | crates/diskd/src/svc.rs:1949-1976 | So does every object of a checkpoint whose head.json is a volume of a head the caller names. |
| `SweepTheorems.HeadLayersStay` | crates/diskd/src/svc.rs:1977-2030 | So does the manifest of every layer in the chain of a head that is left, and of its memory. |
| `SweepTheorems.ChainStays` | crates/diskd/src/svc.rs:1977-2030 | So does the manifest of every layer the caller or a head that is left names, and of its ancestors as far as manifests were read. |
| `SweepTheorems.LayerChunksStay` | crates/diskd/src/svc.rs:2031-2061 | So does every chunk of a manifest that is left. |
| `SweepTheorems.UnnamedCheckpointGoes` | crates/diskd/src/svc.rs:1949-1976 | Once it ran through, every object of a checkpoint past the grace is gone if the caller names neither its head nor one that has it as a volume. |
| `SweepTheorems.UnneededLayerGoes` | crates/diskd/src/svc.rs:1977-2030 | So is every old layer of a set that nobody names and whose children are all in the set, whatever cycles the parents make. |
| `SweepTheorems.UnneededChunkGoes` | crates/diskd/src/svc.rs:2031-2061 | So is every old chunk that no manifest of a layer that is left has. |
| `SweepTheorems.RootIsNamed` | crates/diskd/src/svc.rs:1983-2000 | Pass 2 starts from exactly the layers the caller names, those in the chains of the heads that are left, and their memory layers. |
| `PushNode.Node.PushChunk` | crates/diskd/src/svc.rs:486-514 | A chunk reported there is in the bucket: marked, uploaded, or found by a probe; each is a step of the machine; if nothing fails it is reported exactly if the node has its marker or file or the bucket has it. |
| `PushNode.Node.MarkPushed` | crates/diskd/src/svc.rs:766-807 | Only chunks of the batch, which are in the bucket, are marked; any of the markers may be lost, none if nothing fails. |
| `PushNode.Node.PushChunks` | crates/diskd/src/svc.rs:478-534 | The chunks of a layer, tried in any order and marked batch by batch, are a run of the machine; if all were found there, they are; if nothing fails and each can be had they are, and are marked. |
| `PushNode.Node.PushLayer` | crates/diskd/src/svc.rs:470-543 | Wherever it stops, what it did is a run of the machine, so marked chunks are in the bucket and every manifest there has its chunks; on success the layer is there; it succeeds, with its markers, if nothing fails, the node has the manifest and each chunk can be had. |
| `PushNode.Node.ScanChain` | crates/diskd/src/svc.rs:431-460 | The layers pending, newest first, and those marked and found in the bucket make up the whole chain; it succeeds exactly if the node has all the manifests; if no probe fails, no layer that is marked and in the bucket is pending. |
| `PushNode.Node.PushChain` | crates/diskd/src/svc.rs:428-465 | On success the layer and all its ancestors are in the bucket; wherever it stops, it is a run of the machine, and a bucket in which every layer has its parent still is one; if nothing fails, the node has the chain's manifests and each chunk can be had, it succeeds, with every layer marked. |
| `PushNode.Node.EnsureManifests` | crates/diskd/src/svc.rs:635-674 | On success the whole chain is local; the markers learned from fetched manifests are true, by a run of the machine; if nothing fails it succeeds exactly if the node or the bucket has each manifest, and what it fetched is marked. |
| `PushNode.Node.ExpireJournals` | crates/diskd/src/svc.rs:826-887 | Expiry only takes markers away. |
| `PushRuns.RunKeeps` | crates/diskd/src/svc.rs:428-543 | With any number of uploads interleaved, crashes anywhere, and sweeps between uploads that run through, a marker implies the chunk and a manifest implies its chunks, at the end of every run. |
| `PushRuns.SweepKeepsIff` | crates/diskd/src/svc.rs:2055-2075 | A chunk sweep keeps that exactly if it runs through to the unmarking or deleted no marked chunk. |
| `PushRuns.SweepSafeIff` | crates/diskd/src/svc.rs:2059-2074 | Whichever deletes of a chunk sweep fail, every marker and every manifest is still true after it: exactly if no chunk it plans to delete is marked on the node. |
| `PushRuns.FailedSweepThenPush` | crates/diskd/src/svc.rs:2059-2074 | From an empty node and bucket a run, with an upload cut short, a sweep that fails halfway and the next upload, puts a manifest into the bucket whose chunk is not there. |
| `PushSweep.SweepIsRun` | crates/diskd/src/svc.rs:1977-2074 | What the passes of a sweep and its unmarking leave, of manifests with their parents and chunks, is what a step that drops manifests and one that drops chunks of no manifest leave; clean if the sweep ran through or deleted no marked chunk. |
| `PushSweep.SweepNode` | crates/diskd/src/svc.rs:1893-2074 | So after a sweep of the store by a node without an upload, every marker and every manifest is still true if the sweep ran through, and whenever no marked chunk was deleted. |
| `PinSweep.SweptIsCovered` | crates/diskd/src/svc.rs:2014-2025 | If every layer of a row that the bucket lacks counts as only the node's, it does after a pass 2 that ran through and removed its markers. |
| `PinSweep.StoppedCoversIff` | crates/diskd/src/svc.rs:2013-2025 | Whichever deletes of pass 2 fail, so that it returns before it removes a marker, it still does: exactly if no layer of a row that the pass plans to delete is marked as uploaded, an unheaded disk's own aside. |
| `PinSweep.StoppedSweepUnpins` | crates/diskd/src/svc.rs:2013-2025 | Otherwise it need not: for every uploaded layer of a row that nothing names, the pass may delete it and stop, and the pin set has no chunk of it. |
| `PinSweep.SweepAndPin` | crates/diskd/src/svc.rs:2013-2025 | After a sweep whose pass 2 ran through, the pins refreshed hold every data chunk of every row's layer that the bucket lacks and the node has the manifest of. |
| `DiskLocks.CountIsOne` | crates/diskd/src/svc.rs:113-124 | The reference count is one exactly if no call waits for or holds the disk's lock. |
| `DiskLocks.StepKeeps` | crates/diskd/src/svc.rs:107-208 | Entering, acquiring, timing out or being dropped, releasing and forgetting keep the table sound. |
| `DiskLocks.LocksAreSafe` | crates/diskd/src/svc.rs:187-208 | In every interleaving at most one call holds a disk's lock, all calls that wait or hold share the one in the table, and a disk without a call under way has no entry. |
| `DiskLocks.OnlyOwnDiskBlocks` | crates/diskd/src/svc.rs:187-208 | A waiting call can go on exactly if no call of its own disk holds. |
| `DiskLocks.CallsCanEnd` | crates/diskd/src/svc.rs:107-208 | From every sound state some steps end all calls, and then the table is empty. |
| `TraceRows.SpanRows` | web/src/traces.js:166-198 | The rows are a forest drawn top to bottom: every span once, under its parent, siblings by start and id; roots are the spans without a parent in the trace, then, by start, spans no chain of parents leads from to one of those. |
| `TraceRows.Walk` | web/src/traces.js:181-192 | Draws exactly what hangs below a span and was not drawn; it ends however parents loop. |
| `TraceShape.TraceIsDrawn` | web/src/traces.js:158-198 | Every span of the trace is in exactly one row, rows are in preorder, children and below are the numbers of rows right under and anywhere under a row, and up is the parent unless the row is a root. |
| `TraceLines.TraceHasLines` | web/src/traces.js:158-198 | A row is a last one exactly if it is a root or no later row has its path; it has a rail for each ancestor but the root, which runs on exactly if that ancestor is not a last one; siblings come by start, then by id, and roots in the order of the forest. |
| `TraceLines.DrawTrace` | web/src/traces.js:166-198 | Drawing any trace, with cyclic or missing parents as well, gives rows of such a forest, with all of that, the lines included. |
| `TraceShape.RowsAreLines` | web/src/traces.js:269-276 | Drawn rows meet what the critical path needs: ids once, parents first. |
| `TraceFolds.ShownRows` | web/src/traces.js:202-211 | Exactly the rows with no folded ancestor, in order. |
| `TraceFolds.OpenCounts` | web/src/traces.js:223-226 | Opening a folded span that shows adds exactly its children to what shows. |
| `TraceFolds.ErrorFoldsShow` | web/src/traces.js:219-226 | With just the failed spans opened for, a row shows exactly if each of its ancestors is an ancestor of a failed span. |
| `TraceFolds.FirstFolds` | web/src/traces.js:219-235 | Every failed span shows; the rows shown stay within the larger of the budget and what the failures force; each later opening is of a longest span that fits, until none fits; a trace within the budget opens whole. |
| `TracePath.Walk` | web/src/traces.js:282-296 | The sections partition the interval, are of spans at or below the walked one, and each moment is held by the child that finished last before it, down its own children, else by the span. |
| `TracePath.PartsAre` | web/src/traces.js:277-287 | The parts looked at are exactly those of the span's children in the drawing, each clipped to the interval, empty ones only of children that took no time. |
| `TracePath.HolderIs` | web/src/traces.js:282-296 | Of the children that took time and were over, the one that finished last, or was drawn first of those, holds while it ran, down its own children; after it the span does, before it whoever does as seen from its start; without one, the span. |
| `TracePath.CriticalPath` | web/src/traces.js:269-299 | Each root once and in order, with sections of it and its descendants that partition its interval, each moment its holder's, whatever its children's clocks say. |
| `TracePath.PartitionDisjoint` | web/src/traces.js:263-268 | Sections of a partition are pairwise disjoint and inside the interval. |
| `TraceSelf.SelfUs` | web/src/traces.js:313-327 | Duration minus the measure of the union of the clipped children; the clamp at zero changes the result only for a negative duration. |
| `TraceSelf.WaitParts` | web/src/traces.js:333-343 | With a child inside: sorted, separated stretches covering exactly the moments a child runs, adding up to duration minus self time; without: the whole of a call, else nothing. |
| `Fetch.Control.Fail` | crates/feos-authn/src/control.rs:225-230 | A request is due again after the old backoff, which doubles up to 60 s. |
| `Fetch.Control.Replace` | crates/feos-authn/src/control.rs:306-356 | A request in flight on a connection that goes becomes due again; the backoff stays. |
| `Fetch.Control.OnMessage` | crates/feos-authn/src/control.rs:396-496 | A refetch is owed from then on; a good answer leaves owed exactly what came while it was in flight and ends the backoff, a bad one runs it; a hello opens the connection, a wrong one closes it; before its hello a connection's other messages change nothing. |
| `Fetch.Control.Ask` | crates/feos-authn/src/control.rs:359-376 | A request is sent only past a hello, when due, with none in flight and no backoff running, and then it is, unless the connection is lost. |
| `Fetch.Control.Step` | crates/feos-authn/src/control.rs:284-376 | A new connection replaces the old and waits for its hello; one that is closed, or said the wrong hello, is gone; what was in flight on it is due again; past the hello, and once a wait is over, what is due is sent or the connection lost; what is owed stays owed until a request is sent. |
| `Fetch.Control.Run` | crates/feos-authn/src/control.rs:269-376 | In every run where each request is answered at most once on its own connection: a request in flight is on a live connection past its hello, it is the only one, exactly what is owed is due or in flight to be asked again, and the backoff is between 2 s and 60 s. |

## Left out

- TracePath.CriticalPath: gives each root's sections in the order they are found; grouping them by span and sorting each span's by start is not modelled.
- TraceRows.SpanRows: takes spans with distinct ids; what is drawn of a trace that repeats an id is not modelled.
- SweepPlan.PlanSnapshots: says which keys are planned, not their order, and does not count bytes; the source sorts the keys and adds up sizes for its report.
- SweepPlan.PlanById: stands for both `plan_layers` and `plan_chunks`, which differ in how a key is parsed; order and byte counts are left out as above.
- PushRuns.RunKeeps: does not cover a sweep that races an upload or markers of several nodes; safety there rests on the grace and on clocks.
- PushNode.Node.MarkPushed: journals are not modelled as files; a marker that a journal's failure or disappearance prevents is one that is lost.
- PushNode.Node.ExpireJournals: which markers go, and when, is not said; any may.
- CacheActor.Actor.DropOldest: the unlink succeeds; one that fails leaves a file the actor no longer counts (crates/disk-store/src/cache.rs:463-467), which is no outcome here.
- CacheRuns.NoFileIsForgotten: holds of files whose unlink succeeds, for the same reason.
- ReadPath.Device.ZeroWriteIo: a piece of a discard is written whole or fails; the source takes a short write of zeros for a whole one.
- ReadPath.Device.ReadIo: a read of a file is whole or fails; the source does not look at how much a read gave.
- ReadPath.Materialize: takes layers whose data chunks are as long as their place in the disk; a chunk file of another length than its entry says, which the source refuses as corrupt, is no outcome.
- DiskRuns.DiskService.SealDisk: a commit step that fails counts as the node's death there; what is left of the disk is the same.
- TraceLines.DrawTrace: distinct ids, as for the rows.
- UffdRuns.StepKeeps: a release and the service of a fault are single steps; the order of REMOVE events and the worker threads' queues are not modelled.
- CacheRuns.HeldChunkStays: the removal of chunk files by a check of the store, which tells the actor to forget them, is not among the steps.
- DiskRuns.RunIsAnArray: one disk; two disks that share a private layer by content are excluded by hypothesis.
- Parents of manifests, and volumes of heads, that are kept only by the grace: the passes do not promise them.
- ublk, io_uring, device recovery, sockets, descriptor passing and the wakeups of chunk fetches: calls into systems with no model here.
- zstd, blake3, HPKE, OIDC, TLS and HMAC: an ideal hash and a compressed length as a function stand for the first two, the others are left out.
- Statistics of seals and caches, latency histograms, reports: telemetry.
- `bake`'s guard against writes, which does not count discards: no clean property.
- The rest of feos-authn (bindings, destination rules, body streaming), the FeChat backend, the REST client, routes, views and formatting, `foldLevel`, `criticalByService`, the activity timeline: easy members, or I/O and user interface.
- The Go control plane is not part of this model.
