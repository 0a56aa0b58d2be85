# Kiseki chunk store: a verified model

Kiseki stores encrypted chunks on a cluster. A chunk is split into k data and m parity fragments that go to k + m nodes; a
scrub rebuilds lost fragments; each node keeps its bytes in extents of block devices; many small chunks are packed into
slabs that are rewritten when they fragment; an audit log records what happened; and backups are published as pairs of
blobs. This project models that logic in Dafny and proves what it promises, for every input and over every run.

`dafny verify dfyconfig.toml` checks the whole project.

## How the model is laid out

| files | part of the system |
|---|---|
| `Erasure`, `ParityCode`, `Routing`, `Repair`, `Scrub` | sharding and padding, a lawful code for every k, fragment routing, fragment repair, scrub passes |
| `Cluster`, `ClusterRead`, `Durability`, `Upkeep` | erasure-coded writes and reads as a machine of single steps (start, landing of a put, acknowledgement, loss, scrub), what an acknowledged write is worth, and how losses and scrubbing balance over a run |
| `Placement`, `Sorting` | rendezvous placement for an arbitrary score function; the stable sort it and others use |
| `Bitmap`, `FreeList`, `Allocator`, `Ledger` | the extent allocator: bits, the free-list cache, the object, and whole runs of it |
| `Superblock`, `Device`, `DeviceRuns` | the on-disk layout, the file-backed device, and whole runs of it with failing writes and crashes |
| `Pool`, `PoolRuns` | several devices behind one address space, and whole runs of the pool, members reopening and crashing among them |
| `Slabs`, `SlabCodec`, `SlabStore`, `SlabFabric` | packing, byte formats, the reference index, and slabs stored through the cluster |
| `Compactor`, `Rewriter` | the pass that packs chunks into slabs and the pass that rewrites fragmented slabs |
| `Audit` | the per-tenant log and its command-log store |
| `Calendar`, `Backup`, `BackupRuns` | timestamps, tarballs and cleanup, and the two-blob publish and delete order |
| `Base` | bytes, results, little-endian integers, small sequence facts |

Code that works by steps is a method with loops, or a class whose methods change its fields; each is proved equal to a function
of its inputs or of the old state, and the theorems are about those functions. Runs are lists of events folded by a step
function, and a theorem about a run quantifies over every list. Every lemma carries `{:induction false}`: its proof is the one
written down.

What is not the system's own is a parameter. The Reed-Solomon library is any code in which k shards give back all k + m
(`Erasure.Mds`; `ParityCode.ParityIsLawful` and `Erasure.MirrorIsLawful` show the assumption can be met for every k). Checksums, placement scores, clocks, fresh ids, the
order in which a hash map is walked, and the success or failure of every remote call are arbitrary functions. A chunk id
names one ciphertext, as content addressing has it.

## What turned out not to hold as one would like

- `BitmapAllocator::free` checks only the bounds. `Allocator.FreeExact` gives the exact condition under which the free list stays
  right, `Allocator.DoubleFreeBreaks` a concrete extent for which it does not; live extents always meet the condition.
- A read without the length strips trailing zeros (`ClusterRead.ReadWithoutLength`; `ClusterRead.FinalZeroIsLost` is a ciphertext that is lost
  that way), so a slab comes back exactly when its bytes do not end in zero (`SlabFabric.SlabThroughFabric`). The slabs of a pass never do,
  because what is packed are envelopes and these do not end in zero (`SlabFabric.PassSlabIsGood`).
- A chunk packed twice into one slab is counted down only once (`SlabStore.CollectableIff`), so such a slab is never collected by releases;
  two compositions that share a chunk are enough to get there (`SlabStore.SharedChunkNeverCollected`). Such a slab reads back with the
  right counts exactly when the first and the last count of every chunk agree (`SlabFabric.GetAfterPut`), which one release undoes (`SlabFabric.ReleasedTwin`), and a rewrite keeps the meaning of
  such chunks exactly when their copies agree (`Rewriter.MeaningIff`).
- One audit event type does not survive the log (`Audit.TypeRoundTrip`), and a store rebuilt from any log loses its next command on
  a later replay exactly when the last index replayed is past the length of the log (`Audit.NextSurvivesIff`, `Audit.RisingLast`,
  `Audit.NoGapIff`, `Audit.GapLosesNext`).
- A cleanup stops the process on a snapshot whose retention ends past the 64-bit seconds (`Backup.ExpiredIff`).
- A delete of a snapshot id whose creation has not ended can leave a manifest without its tarball (`BackupRuns.OtherDeletesBreak`); deletes of
  every other id, listed ones among them, cannot.
- Where comments and code differ the model follows the code: a slab is rewritten when the dead share reaches the threshold, not only when
  it exceeds it, and the rewrite does not collect the old slab.

## Model

| member | source | states |
|---|---|---|
| `Erasure.Encode` | crates/kiseki-chunk/src/ec.rs:38-111 | Fails exactly for a zero shard count, a shape the library refuses or a failing encoder, each with its own error, and never for empty data; otherwise gives the k padded slices and their parity. |
| `Erasure.LawfulEncodes` | crates/kiseki-chunk/src/ec.rs:38-97 | With a lawful code the only failure left is a refused shape. |
| `Erasure.Decode` | crates/kiseki-chunk/src/ec.rs:126-180 | Agrees with `Decoded` for every slot table, including too few fragments and the empty chunk. |
| `Erasure.RoundTrip` | crates/kiseki-chunk/src/ec.rs:38-180 | Any table holding at least k genuine fragments decodes to the original, for every length, k and m. |
| `Erasure.DecodePadded` | crates/kiseki-chunk/src/ec.rs:126-180 | With any requested length the result is that prefix of the zero-padded data. |
| `Erasure.ShardSizeCovers` | crates/kiseki-chunk/src/ec.rs:72-86 | The shard size is the length over k rounded up: k shards cover the data with fewer than k bytes of padding. |
| `Erasure.ShardsJoin` | crates/kiseki-chunk/src/ec.rs:72-86 | The first n data shards concatenated are that much of the padded data. |
| `Erasure.MirrorIsLawful` | crates/kiseki-chunk/src/ec.rs:67-97 | Mirroring is a code of the assumed kind for one data shard and any number of copies. |
| `ParityCode.ParityIsLawful` | crates/kiseki-chunk/src/ec.rs:67-97 | One balancing parity shard is a code of the assumed kind for every number of data shards. |
| `Routing.EncodeForPlacement` | crates/kiseki-chunk-cluster/src/ec.rs:106-148 | Fragment i goes to placement node i; a placement of the wrong size is refused. |
| `Routing.DecodeFromResponses` | crates/kiseki-chunk-cluster/src/ec.rs:157-189 | Agrees with `DecodedResponses`: slots filled in arrival order, out-of-range indices ignored. |
| `Routing.RouteRoundTrip` | crates/kiseki-chunk-cluster/src/ec.rs:106-189 | Responses in any order, with duplicates, that cover k distinct indices decode to the ciphertext. |
| `Routing.RouteTooFew` | crates/kiseki-chunk-cluster/src/ec.rs:157-189 | Responses that cover fewer than k indices of a non-empty chunk never decode. |
| `Routing.RouteNoLength` | crates/kiseki-chunk-cluster/src/lib.rs:568-594 | Decoding to k times the fragment size gives the ciphertext up to trailing zeros. |
| `Repair.RepairEc` | crates/kiseki-chunk-cluster/src/scrub_adapters.rs:185-273 | Agrees with `Repaired` in every branch: too few sources, failed fetches, decode errors, unknown index, failed put. |
| `Repair.RepairExact` | crates/kiseki-chunk-cluster/src/scrub_adapters.rs:185-273 | A repair that succeeds stores exactly the fragment the original encode gave that index and changes nothing else; it succeeds when k sources answer. |
| `Scrub.RunEc` | crates/kiseki-chunk-cluster/src/scrub.rs:465-540 | One pass, forwarded to the replication pass without a strategy; scanned = healthy + lost + repaired + repair errors, and critical is at most repaired, for any oracle and any repairer. |
| `Scrub.RunReplicated` | crates/kiseki-chunk-cluster/src/scrub.rs:401-455 | The replication pass: the same counts and stores as a pass whose repairer copies from the first healthy peer to the first missing one. |
| `Scrub.SplitByPresence` | crates/kiseki-chunk-cluster/src/scrub.rs:495-509 | Finds all present pairs and the first missing one. |
| `Scrub.DecisionIs` | crates/kiseki-chunk-cluster/src/scrub.rs:263-275 | The policy's decision in terms of the number of fragments present. |
| `Scrub.ScrubPassSound` | crates/kiseki-chunk-cluster/src/scrub.rs:487-540 | For any oracle and any repairer that adds only genuine fragments, a pass stores only genuine fragments and changes or removes none. |
| `Scrub.FabricMends` | crates/kiseki-chunk-cluster/src/scrub_adapters.rs:185-273 | The fabric's repairer is such a repairer, whatever peer calls fail. |
| `Scrub.FabricSetting` | crates/kiseki-chunk-cluster/src/scrub_adapters.rs:185-273 | While peer calls go through, it also restores the asked-for fragment exactly when k others are there. |
| `Scrub.ScrubOneProgress` | crates/kiseki-chunk-cluster/src/scrub.rs:487-540 | With a truthful oracle and such a repairer a visit restores exactly one missing fragment from k up to the goal, and otherwise changes nothing. |
| `Scrub.Convergence` | crates/kiseki-chunk-cluster/src/scrub.rs:487-540 | After n calm passes over the fabric a chunk with at least k fragments has n more, up to its goal; one below k is as it was. |
| `Scrub.AllHealthy` | crates/kiseki-chunk-cluster/src/scrub.rs:487-540 | As many passes as the worst chunk is short make the next pass report everything healthy and change nothing. |
| `Cluster.FanOut` | crates/kiseki-chunk-cluster/src/lib.rs:292-412 | The whole new state of a started write: local fragments written, each with its own outcome, remote ones sent, unknown nodes skipped. |
| `Cluster.CollectAcks` | crates/kiseki-chunk-cluster/src/lib.rs:413-444 | Whatever order completions come in, with the early exit, the verdict is that of the number that succeeded. |
| `Cluster.DrainOrder` | crates/kiseki-chunk-cluster/src/lib.rs:413-444 | The step machine reaches the same verdict in every completion order. |
| `Cluster.RunInv` | crates/kiseki-chunk-cluster/src/lib.rs:292-444 | Over every run only genuine fragments are stored or on the wire; what a write counts as acknowledged landed for that write, and is on its node unless erased since; statuses tie out. |
| `ClusterRead.ReadChunkEc` | crates/kiseki-chunk-cluster/src/lib.rs:460-646 | The read loop agrees with `ReadEc` in every branch. |
| `ClusterRead.ReadExact` | crates/kiseki-chunk-cluster/src/lib.rs:460-646 | Over every run, from every node, in every arrival order and with every fetch served at its own point of the run, a read with the true length succeeds exactly when k fragments answer and crypto fields are found, and returns the written ciphertext. |
| `ClusterRead.ReadWithoutLength` | crates/kiseki-chunk-cluster/src/lib.rs:568-594 | The same for a read without the length, which returns the ciphertext without its trailing zeros; right exactly when it does not end in zero. |
| `ClusterRead.FinalZeroIsLost` | crates/kiseki-chunk-cluster/src/lib.rs:568-594 | A concrete write of the one byte zero, read without its length, comes back empty. |
| `Durability.LostMeans` | crates/kiseki-chunk-cluster/src/lib.rs:383-432 | A write has lost exactly the fragments erased by an event after its own put of them had landed. |
| `Durability.DurableWrite` | crates/kiseki-chunk-cluster/src/lib.rs:292-444 | A write that returned Ok has at least max(min_acks, k) distinct fragments, each on its placement node unless lost in that sense; one that lost its quorum has fewer. |
| `Durability.DurableRead` | crates/kiseki-chunk-cluster/src/lib.rs:292-646 | After an Ok write and any later events, a reader that reaches some k acknowledged fragments not lost since gets the ciphertext, its fetches served at any later points. |
| `Durability.SurvivesNodeLoss` | crates/kiseki-chunk-cluster/src/placement.rs:31-49 | With rendezvous placement an Ok write survives the loss of any |acked| - k whole nodes, at any times since it began: the read returns the ciphertext. |
| `Upkeep.CalmGains` | crates/kiseki-chunk-cluster/src/scrub.rs:487-540 | A scrub pass with a truthful oracle and peers that answer restores a fragment of every listed chunk from k up to the goal, as one step of the cluster machine. |
| `Upkeep.KeepsUp` | crates/kiseki-chunk-cluster/src/scrub.rs:487-540 | Over every run, as long as losses never get further ahead of such passes than goal - k, a chunk is short of its goal by no more than that lead, and so keeps k fragments, however many are lost in total. |
| `Upkeep.ReadableForGood` | crates/kiseki-chunk-cluster/src/lib.rs:292-646 | So after a write, counting what it was short of the goal when it returned, every later read that reaches the placement nodes returns the ciphertext. |
| `Placement.PlacementShape` | crates/kiseki-chunk-cluster/src/placement.rs:31-49 | The result is duplicate-free, has size min(target, n), and every node left out ranks behind every node picked. |
| `Placement.OrderIndependent` | crates/kiseki-chunk-cluster/src/placement.rs:31-49 | The order of the membership list does not matter. |
| `Placement.PrefixOfLarger` | crates/kiseki-chunk-cluster/src/placement.rs:31-49 | A larger target only appends. |
| `Placement.RemoveNode` | crates/kiseki-chunk-cluster/src/placement.rs:31-49 | Removing an unpicked node changes nothing; removing a picked one deletes it in place and appends the next. |
| `Placement.AddNode` | crates/kiseki-chunk-cluster/src/placement.rs:31-49 | A joining node displaces at most one. |
| `Bitmap.GetSetRange` | crates/kiseki-block/src/allocator.rs:233-263 | Setting a range of bits changes exactly those bits that are inside the bitmap. |
| `FreeList.RebuiltAgrees` | crates/kiseki-block/src/allocator.rs:265-287 | The rebuild loop yields exactly the maximal runs of clear bits. |
| `FreeList.AgreesUnique` | crates/kiseki-block/src/allocator.rs:265-287 | At most one free list agrees with a bitmap. |
| `FreeList.TakeAgrees` | crates/kiseki-block/src/allocator.rs:156-174 | Taking the front of a run keeps list and bitmap in agreement. |
| `FreeList.GiveBackAgrees` | crates/kiseki-block/src/allocator.rs:177-204 | Giving blocks back and merging on both sides keeps agreement. |
| `FreeList.GiveBackOnlyIf` | crates/kiseki-block/src/allocator.rs:177-204 | If agreement survives, the blocks given back qualified. |
| `Allocator.BitmapAllocator.New` | crates/kiseki-block/src/allocator.rs:60-84 | A new allocator has an empty bitmap and the rebuilt list. |
| `Allocator.BitmapAllocator.FromBitmap` | crates/kiseki-block/src/allocator.rs:88-106 | Opening rebuilds the list from the bits. |
| `Allocator.BitmapAllocator.Alloc` | crates/kiseki-block/src/allocator.rs:109-174 | The whole new state and the result, errors included. |
| `Allocator.BitmapAllocator.Free` | crates/kiseki-block/src/allocator.rs:177-204 | The whole new state and the result, errors included. |
| `Allocator.BitmapAllocator.RebuildFreeList` | crates/kiseki-block/src/allocator.rs:265-287 | The loop computes the rebuilt list. |
| `Allocator.BitmapAllocator.Coalesce` | crates/kiseki-block/src/allocator.rs:289-313 | Merges with the run before and the run after. |
| `Allocator.BitmapAllocator.FreeBlocks` | crates/kiseki-block/src/allocator.rs:227-230 | The sum of the list is the number of clear bits. |
| `Allocator.AllocExact` | crates/kiseki-block/src/allocator.rs:109-174 | Succeeds exactly when the request is within one block and the cap and the bitmap has a free stretch that long; takes the front of the shortest sufficient maximal run, lowest on ties; under one block of slack; keeps agreement. |
| `Allocator.FullReportsLongest` | crates/kiseki-block/src/allocator.rs:135-154 | A full device reports the longest free run, and it is too short. |
| `Allocator.FreeExact` | crates/kiseki-block/src/allocator.rs:177-204 | Agreement survives a free exactly when the blocks are backed by the bitmap and the free ones among them are a whole run at the front. |
| `Allocator.DoubleFreeBreaks` | crates/kiseki-block/src/allocator.rs:194-201 | A concrete free of a free block after which the list is wrong. |
| `Allocator.ReopenIsIdentity` | crates/kiseki-block/src/allocator.rs:88-106 | Writing the bitmap out and opening it again changes nothing. |
| `Ledger.RunInv` | crates/kiseki-block/src/allocator.rs:109-204 | Over every run of allocations, frees of live extents and reopenings: agreement, live extents disjoint and in bounds, free plus live blocks constant. |
| `Ledger.TakeExtent` | crates/kiseki-block/src/allocator.rs:109-174 | What the books enter for an allocation is the very extent it returns. |
| `Ledger.FreeAnyOrder` | crates/kiseki-block/src/allocator.rs:177-204 | Freeing the same live extents in any order gives the same state. |
| `Superblock.LayoutHolds` | crates/kiseki-block/src/superblock.rs:42-73 | For every size and block size the regions are in order and disjoint, each bitmap region holds all bits, and data ends inside the device. |
| `Superblock.ToBytes` | crates/kiseki-block/src/superblock.rs:77-93 | Fills one block with the ten fields in order, zeros behind. |
| `Superblock.FormatRoundTrip` | crates/kiseki-block/src/superblock.rs:42-195 | A formatted superblock parses back exactly when the block size is a power of two and the device has a block; otherwise it is refused. |
| `Device.FileBackedDevice.Alloc` | crates/kiseki-block/src/file.rs:175-180 | Asks the allocator for payload plus overhead. |
| `Device.FileBackedDevice.Write` | crates/kiseki-block/src/file.rs:183-238 | Three writes at a cursor put one frame where the extent starts; too much data is refused; when the file fails part of the way, that part of the frame is written and the call is an error. |
| `Device.FileBackedDevice.Read` | crates/kiseki-block/src/file.rs:241-305 | Agrees with `ReadBack`: short file, length past the extent and wrong checksum are errors. |
| `Device.FileBackedDevice.Free` | crates/kiseki-block/src/file.rs:307-310 | Frees in the allocator. |
| `Device.FileBackedDevice.Sync` | crates/kiseki-block/src/file.rs:157-171 | Writes the bitmap to both its regions. |
| `Device.FormattedParses` | crates/kiseki-block/src/file.rs:54-155 | What init writes parses exactly when the device can hold a block. |
| `DeviceRuns.RunInv` | crates/kiseki-block/src/file.rs:157-312 | Over every run, failing writes and crashes among the events, the superblock stays, frames stay inside their extents, bitmap flushes stay out of the data, and the file holds the bitmap of the last flush. |
| `DeviceRuns.LastWriteWins` | crates/kiseki-block/src/file.rs:111-312 | Over every such run on a fresh device of any size and for any checksum, reading a live extent gives its last payload, and a sync followed by open gives the same device. |
| `DeviceRuns.CrashRecovers` | crates/kiseki-block/src/file.rs:111-171 | At the end of every such run, opening the unflushed file gives the allocator of the last flush, and an extent live then and still live reads its last payload, written before or after that flush. |
| `DeviceRuns.SyncedMeans` | crates/kiseki-block/src/file.rs:157-171 | What a crash goes back to is the state at the last sync or opening, or that of the start. |
| `Pool.New` | crates/kiseki-block/src/pool.rs:47-69 | Refuses an empty member list; otherwise slices are laid end to end. |
| `Pool.DevicePool.constructor` | crates/kiseki-block/src/pool.rs:47-69 | Bases are the saturating running sums of the capacities. |
| `Pool.Route` | crates/kiseki-block/src/pool.rs:107-119 | The scan finds the last slice that starts at or below the offset. |
| `Pool.RouteInverts` | crates/kiseki-block/src/pool.rs:107-119 | An offset inside a member's slice routes to that member, zero-capacity members included, when capacities add up below 2^64. |
| `Pool.TryAllocOrdered` | crates/kiseki-block/src/pool.rs:92-104 | Asks members in order until one accepts; the last refusal is the error. |
| `Pool.PoolAllocExact` | crates/kiseki-block/src/pool.rs:92-152 | Fails exactly when every member refuses; otherwise one member changes, and it ranks ahead of every other that would have accepted. |
| `Pool.BetterMeans` | crates/kiseki-block/src/pool.rs:123-152 | Ranking ahead: the hinted tier is left, or a faster tier passed over, only if all its members refuse; most free space first inside a tier. |
| `Pool.DevicePool.AllocInTier` | crates/kiseki-block/src/pool.rs:123-152 | Sorts the members stably by class and free space and tries them in that order. |
| `Pool.DevicePool.Write` | crates/kiseki-block/src/pool.rs:154-157 | Writes through the routed member only, as far as that write gets. |
| `Pool.DevicePool.Read` | crates/kiseki-block/src/pool.rs:159-162 | Reads through the routed member. |
| `Pool.DevicePool.Free` | crates/kiseki-block/src/pool.rs:164-167 | Frees in the routed member only. |
| `PoolRuns.RunInv` | crates/kiseki-block/src/pool.rs:92-167 | Every step of the pool on global extents, and every reopening or crash of a member, is a step of that member alone, so each member keeps its own invariant. |
| `PoolRuns.PoolReads` | crates/kiseki-block/src/pool.rs:92-167 | Over every run a live extent routes to its member and reads back its last payload. |
| `PoolRuns.PoolApart` | crates/kiseki-block/src/pool.rs:92-167 | Over every run live extents do not meet in the global address space. |
| `PoolRuns.TakeIsAlloc` | crates/kiseki-block/src/pool.rs:92-104 | The run machine's allocation changes the devices exactly as the pool's does, and the extent the pool returns is the one entered as live at the member that took it. |
| `PoolRuns.Pooled` | crates/kiseki-block/src/pool.rs:47-69 | Sound members whose capacities add up below 2^64 make a pool a run can start from. |
| `PoolRuns.FreshPool` | crates/kiseki-block/src/pool.rs:47-69 | Freshly initialised devices whose capacities add up below 2^64, in any tiers, are such a pool, and every run from it keeps the invariant. |
| `Slabs.EncodeSlab` | crates/kiseki-chunk/src/slab.rs:219-266 | Succeeds exactly for packable chunks the encoder takes; packs in the given order. |
| `Slabs.PackedAt` | crates/kiseki-chunk/src/slab.rs:219-288 | Every extent of a packed slab selects its chunk's bytes. |
| `Slabs.SlabBuilder.Push` | crates/kiseki-chunk/src/slab.rs:343-349 | Appends, and keeps the byte count and the arrival time of the oldest. |
| `Slabs.SlabBuilder.Drain` | crates/kiseki-chunk/src/slab.rs:372-376 | Hands out everything in order and empties the builder. |
| `Compactor.FlushSlab` | crates/kiseki-chunk-cluster/src/slab_compactor.rs:188-276 | Empties builder and table in every branch; nothing emitted when packing or storing fails, no owners when recording them fails. |
| `Compactor.RunOnePass` | crates/kiseki-chunk-cluster/src/slab_compactor.rs:73-185 | Slabs, log and count are those of cutting everything readable, in scan order, into batches as the byte, count and age caps are reached, each batch flushed once. |
| `Compactor.CutsKeepItems` | crates/kiseki-chunk-cluster/src/slab_compactor.rs:86-185 | The batches and what is pending, put together, are exactly the chunks read, in order. |
| `Compactor.SlabsBounded` | crates/kiseki-chunk-cluster/src/slab_compactor.rs:141-183 | Every batch is within the byte and count caps but for the chunk that reached them. |
| `Compactor.EmittedExact` | crates/kiseki-chunk-cluster/src/slab_compactor.rs:86-276 | Every emitted entry names a scanned chunk of its composition and selects exactly its bytes, for any flush points, failures and map order. |
| `Compactor.LogSelects` | crates/kiseki-chunk-cluster/src/slab_compactor.rs:86-276 | The same for every delta of the log, in a slab that was stored. |
| `Compactor.EmittedOnce` | crates/kiseki-chunk-cluster/src/slab_compactor.rs:86-276 | No scanned chunk is emitted for two slabs or twice for one. |
| `Compactor.EmittedAll` | crates/kiseki-chunk-cluster/src/slab_compactor.rs:246-273 | Every chunk of a stored slab is emitted unless the log refuses its composition's delta. |
| `Compactor.LoggedAll` | crates/kiseki-chunk-cluster/src/slab_compactor.rs:86-276 | Every item of a stored batch whose delta the log takes has an entry in the log of the pass that selects exactly its bytes in that slab. |
| `Compactor.OwnersExact` | crates/kiseki-chunk-cluster/src/slab_compactor.rs:233-243 | The owner records of a stored slab are exactly those of its chunks, or none when recording them failed. |
| `Compactor.MigratedExact` | crates/kiseki-chunk-cluster/src/slab_compactor.rs:247-275 | The returned number is the number of entries in the log. |
| `Rewriter.RunMaintenancePass` | crates/kiseki-chunk-cluster/src/slab_compactor.rs:289-463 | One rewrite per due slab; the count is the number of rewrites. |
| `Rewriter.RewriteSlab` | crates/kiseki-chunk-cluster/src/slab_compactor.rs:310-461 | Agrees with `Rewrite` in every branch that skips or fails, for any rounding of the dead share. |
| `Rewriter.LiveAre` | crates/kiseki-chunk-cluster/src/slab_compactor.rs:342-355 | The new slab is made of exactly the live, in-range extents, in order. |
| `Rewriter.Relocated` | crates/kiseki-chunk-cluster/src/slab_compactor.rs:400-408 | A chunk has a new place exactly when a copy is carried over; the place selects its last copy. |
| `Rewriter.MeaningIff` | crates/kiseki-chunk-cluster/src/slab_compactor.rs:338-421 | Every carried chunk reads as before exactly when copies of a chunk agree. |
| `Rewriter.RewriteExact` | crates/kiseki-chunk-cluster/src/slab_compactor.rs:361-459 | Each delta gives its composition's surviving owners, in order, places in the new slab that select the last carried copy of their chunk. |
| `Rewriter.RewriteReadsTheSame` | crates/kiseki-chunk-cluster/src/slab_compactor.rs:342-459 | Every entry of every delta belongs to a recorded owner and selects in the new slab the bytes every carried extent of its chunk had in the old one, given that copies agree. |
| `Rewriter.RewriteComplete` | crates/kiseki-chunk-cluster/src/slab_compactor.rs:409-459 | An owner is recorded exactly when its chunk is carried over and the records are taken, and told, recorded or not, unless the log refuses. |
| `SlabCodec.SerialiseSlab` | crates/kiseki-chunk-cluster/src/slab_store.rs:58-83 | Header, count, extents and data in that order. |
| `SlabCodec.DeserialiseSlab` | crates/kiseki-chunk-cluster/src/slab_store.rs:90-151 | Agrees with `Deserialised`: short input refused, the inner count trusted. |
| `SlabCodec.SlabRoundTrip` | crates/kiseki-chunk-cluster/src/slab_store.rs:58-151 | With anything behind it a slab parses back exactly when its header's counts agree with its contents. |
| `SlabCodec.SlabTruncated` | crates/kiseki-chunk-cluster/src/slab_store.rs:90-117 | Every proper prefix is refused. |
| `SlabCodec.IndexRoundTrip` | crates/kiseki-chunk-cluster/src/slab_store.rs:279-328 | An index row reads back as the extents that were put. |
| `SlabCodec.OwnersRoundTrip` | crates/kiseki-chunk-cluster/src/slab_store.rs:215-263 | An owner row reads back as the owners that were put. |
| `SlabCodec.ParseRecords` | crates/kiseki-chunk-cluster/src/slab_store.rs:297-328 | The cursor loop; a row that is not whole records reads as absent. |
| `SlabStore.FabricSlabStore.PutSlab` | crates/kiseki-chunk-cluster/src/slab_store.rs:540-582 | Writes the serialised slab under the slab's chunk id, and the index row only if that write succeeded; an index failure is an error, and a failure to persist leaves the row in place. |
| `SlabStore.FabricSlabStore.GetSlab` | crates/kiseki-chunk-cluster/src/slab_store.rs:584-617 | Reads the slab's chunk, parses it, and lays the index's counts over the extents; all three kinds of error, in that order. |
| `SlabStore.FabricSlabStore.DecrementRefcount` | crates/kiseki-chunk-cluster/src/slab_store.rs:619-629 | Rewrites the row with one count down, saturating; unknown slabs and index failures are errors, unknown chunks no change. |
| `SlabStore.FabricSlabStore.GcSlab` | crates/kiseki-chunk-cluster/src/slab_store.rs:631-652 | Asks the fabric to delete the slab's chunk and drops both rows exactly when no extent is referenced, as far as the index operations succeed; the first that fails is the result. |
| `SlabStore.FabricSlabStore.RecordOwners` | crates/kiseki-chunk-cluster/src/slab_store.rs:215-232 | Replaces the slab's owner row with the given records, or reports the index failure; `SlabCodec.OwnersRoundTrip` reads it back. |
| `SlabStore.FabricSlabStore.OwnersFor` | crates/kiseki-chunk-cluster/src/slab_store.rs:421-423 | The owners on record, none for an unknown slab or a row that is not whole records, or the index failure. |
| `SlabStore.OverlayAt` | crates/kiseki-chunk-cluster/src/slab_store.rs:605-615 | Only the first extent of a chunk takes a count, and it takes the last one in the index. |
| `SlabStore.OverlayIff` | crates/kiseki-chunk-cluster/src/slab_store.rs:605-615 | After any releases the overlay gives the index's extents exactly when first and last counts of every chunk agree. |
| `SlabStore.DecrementedAt` | crates/kiseki-chunk-cluster/src/slab_store.rs:619-629 | A run of releases counts down the first extent of each chunk and no other. |
| `SlabStore.CollectableIff` | crates/kiseki-chunk-cluster/src/slab_store.rs:619-652 | A packed slab becomes collectable exactly when every chunk is released and none was packed twice. |
| `SlabStore.SharedChunkNeverCollected` | crates/kiseki-chunk-cluster/src/slab_compactor.rs:86-185 | Two compositions sharing a chunk make a pass pack it twice, and no releases ever make that slab collectable. |
| `SlabStore.IndexTracks` | crates/kiseki-chunk-cluster/src/slab_store.rs:279-328 | After any run of releases the bytes of the index say what the counts are. |
| `SlabFabric.SlabChunkInjective` | crates/kiseki-chunk-cluster/src/slab_store.rs:158-165 | Different slabs have different chunk ids. |
| `SlabFabric.StrippedSlab` | crates/kiseki-chunk-cluster/src/slab_store.rs:584-601 | Stripping trailing zeros loses a slab exactly when its bytes end in zero. |
| `SlabFabric.SlabThroughFabric` | crates/kiseki-chunk-cluster/src/slab_store.rs:540-601 | Over every run the serialised slab is read exactly when k fragments answer and crypto fields are found, and parses back exactly when its bytes do not end in zero. |
| `SlabFabric.GetAfterPut` | crates/kiseki-chunk-cluster/src/slab_store.rs:540-629 | Over every run, get after put and any releases returns the slab with the index's counts exactly when k fragments answer, crypto fields are found, the bytes do not end in zero, and first and last counts of every chunk agree. |
| `SlabFabric.SlabSurvives` | crates/kiseki-chunk-cluster/src/slab_store.rs:540-617 | So a slab whose put returned Ok is read back as it was put while k acknowledged fragments not lost since are reached. |
| `SlabFabric.PackedSlabIsGood` | crates/kiseki-chunk/src/slab.rs:219-266 | Packed slabs are consistent, their first and last counts agree, and they end in a non-zero byte when their last chunk does. |
| `SlabFabric.PassSlabIsGood` | crates/kiseki-chunk-cluster/src/slab_compactor.rs:86-276 | So every slab a pass over envelopes stores is consistent, keeps its last byte and has agreeing counts: it comes back whole. |
| `SlabFabric.FetchedAfterReleases` | crates/kiseki-chunk-cluster/src/slab_store.rs:584-629 | A fetch after any releases returns the packed data with the counts of the index exactly when first and last counts of every chunk agree. |
| `SlabFabric.DistinctFirstIsLast` | crates/kiseki-chunk-cluster/src/slab_store.rs:605-615 | They agree after any releases when no chunk was packed twice. |
| `SlabFabric.ReleasedTwin` | crates/kiseki-chunk-cluster/src/slab_store.rs:619-629 | They no longer agree after one release of a chunk packed twice. |
| `SlabFabric.ColdRead` | crates/kiseki-chunk-cluster/src/slab_compactor.rs:86-276 | For every entry of every delta a pass logs there is a chunk it read such that, over every run of the cluster that wrote the slab, a readable fetch of that slab gives exactly the chunk's bytes at the entry's offset and length. |
| `Audit.TypeRoundTrip` | crates/kiseki-audit/src/raft_store.rs:171-220 | Every event type survives its text except one, which becomes AdminAction. |
| `Audit.AuditLog.Append` | crates/kiseki-audit/src/store.rs:85-97 | Numbers the event in its shard and appends it. |
| `Audit.RaftAuditStore.Append` | crates/kiseki-audit/src/raft_store.rs:230-256 | The same change of the shards as the simple log, and one command numbered by length. |
| `Audit.RaftAuditStore.Replay` | crates/kiseki-audit/src/raft_store.rs:117-169 | The loop computes `Replayed`, skipping indices that do not rise. |
| `Audit.RaftAuditStore.FromCommands` | crates/kiseki-audit/src/raft_store.rs:104-114 | Keeps the log and replays it. |
| `Audit.RaftAuditStore.TenantExport` | crates/kiseki-audit/src/raft_store.rs:286-294 | The tenant's shard, sorted. |
| `Audit.RunQuery` | crates/kiseki-audit/src/store.rs:99-114 | The first matches from a sequence on, up to the limit, in order. |
| `Audit.ShardIs` | crates/kiseki-audit/src/store.rs:85-97 | A shard is its tenant's events in order, numbered 1 to its tip. |
| `Audit.ReplayIsLive` | crates/kiseki-audit/src/raft_store.rs:104-169 | Replaying the log of any appends gives the live shards but for times and the one type. |
| `Audit.ReplayKeeps` | crates/kiseki-audit/src/raft_store.rs:117-256 | Event by event: same tips, sequences, tenants, actors and descriptions. |
| `Audit.ExportIs` | crates/kiseki-audit/src/raft_store.rs:286-294 | An export is the shard as it stands; sorting changes nothing. |
| `Audit.TotalIs` | crates/kiseki-audit/src/raft_store.rs:281-284 | Over any walk of the shards the total is the number of appends and the length of the log. |
| `Audit.ReplaysInFull` | crates/kiseki-audit/src/raft_store.rs:124-128 | A log replays in full exactly when its indices rise from above zero. |
| `Audit.GapLosesNext` | crates/kiseki-audit/src/raft_store.rs:240-242 | After a rebuild from a log with a gap, the next command is skipped by a later replay. |
| `Audit.NextSurvivesIff` | crates/kiseki-audit/src/raft_store.rs:117-256 | A command appended to a store rebuilt from any log is in the shards of the next replay exactly when the last index replayed is at most the length of the log; otherwise it alone is missing from them. |
| `Audit.RisingLast` | crates/kiseki-audit/src/raft_store.rs:124-128 | For a log that replays in full the last index replayed is its own last index. |
| `Audit.NoGapIff` | crates/kiseki-audit/src/raft_store.rs:240-242 | For such a log that index is at most the length exactly when the indices are 1, 2, 3 and so on. |
| `Calendar.DaysToYmd` | crates/kiseki-backup/src/lib.rs:506-540 | The loops find the date: month 1 to 12, day within its month, the right day count. |
| `Calendar.DateUnique` | crates/kiseki-backup/src/lib.rs:506-540 | There is only one date for a day count. |
| `Calendar.ChronoLiteIso` | crates/kiseki-backup/src/lib.rs:497-504 | Prints the date and time of day of a second count. |
| `Calendar.ParseIsoEpoch` | crates/kiseki-backup/src/lib.rs:542-582 | Agrees with `Parsed`: too few parts or a part that is no number is refused. |
| `Calendar.IsoRoundTrip` | crates/kiseki-backup/src/lib.rs:497-586 | For every 64-bit second count the printed text parses back to it. |
| `Backup.BuildTar` | crates/kiseki-backup/src/lib.rs:277-297 | Metadata of every shard, and data only if included and present; fails exactly when some entry's name does not fit its header. |
| `Backup.Restore` | crates/kiseki-backup/src/lib.rs:352-395 | Gathers entries by id and lists them in order of id; fails exactly when some entry cannot be read. |
| `Backup.RestoreExact` | crates/kiseki-backup/src/lib.rs:277-395 | Shards with distinct ids come back exactly, sorted by id, with data only if included. |
| `Backup.CleanupOld` | crates/kiseki-backup/src/lib.rs:436-456 | Tries exactly the due snapshots before the first overflow, in order; counts the deletions that succeed; finishes exactly when nothing overflows. |
| `Backup.ExpiredIff` | crates/kiseki-backup/src/lib.rs:445-450 | A snapshot is removed exactly when its creation second is more than the retention in the past, and stops the cleanup exactly when the sum does not fit 64 bits. |
| `BackupRuns.RunInv` | crates/kiseki-backup/src/lib.rs:307-431 | What every interleaving of creations and careful deletions keeps, with any blob operation failing. |
| `BackupRuns.ManifestHasTarball` | crates/kiseki-backup/src/lib.rs:310-431 | In every state of every such run a manifest has its tarball, and it restores to the shards it was created from. |
| `BackupRuns.ListedIsSafe` | crates/kiseki-backup/src/lib.rs:399-456 | An id that was listed once may be deleted at any later point. |
| `BackupRuns.OtherDeletesBreak` | crates/kiseki-backup/src/lib.rs:422-431 | For every id whose creation has not ended there is a run in which its delete leaves a manifest without a tarball. |

## Left out

- The dispatch in `write_chunk` and `read_chunk`, and the replication strategy beyond routing: they add only easy members.
- `delete_distributed`: the code names fragment index 0 only.
- Orphan scrub: its decision is one comparison, and its age source is rebuilt on every pass.
- Envelope crypto fields after a repair: `repair_ec` writes zeros there, so claims are about fragment bytes.
- Reed-Solomon arithmetic, CRC32C, SipHash scores, encryption: parameters, as said above.
- Wrap-around of 64-bit byte counters (slab offsets, device offsets plus overhead, `pos + extents_size + original_len` in the slab parser): sizes are mathematical integers, except where the pool's sums saturate and where backup seconds overflow.
- SlabStore.FabricSlabStore.GcSlab: says which chunk the fabric is asked to delete; the outcome of that call is ignored by the code and not modelled.
- Erasure.MirrorIsLawful: lawful codes are exhibited for one data shard and, by `ParityCode.ParityIsLawful`, for one parity shard; for more of both the library is a parameter.
- Device.FileBackedDevice.Sync: a crash loses the allocator's memory and keeps what was written to the file; a bitmap flush torn by a crash, a failing seek or flush, and the discard hint are not modelled.
- Pool.DevicePool.AllocInTier: members are held as values, so aliasing of a member outside the pool is not modelled.
- Calendar.ParseIsoEpoch: text with month or day zero, or a result past 64 bits, overflows in the code; the model reports it as an overflow.
- Backup.BuildTar: tar headers are not modelled; a tarball is its list of named entries, and which names fit and which entries can be read are parameters.
- Backup.CleanupOld: an overflow ends the process in the code; the model returns with what was tried until then.
- The numbers and JSON text of the manifest, the S3 client, and the in-progress flag: several managers may share a backend in the model.
- Audit.RunQuery: timestamps are plain numbers.
- Compactor.RunOnePass: the backlog tracker is not modelled; the pass's variables are passed as one record beside the builder object.
