# WebRender GPU block cache, modelled in Dafny

WebRender keeps the data its shaders read (colours, rectangles, clip
parameters) in one float texture, the GPU cache. The render backend owns
its CPU side, `GpuCache` in `webrender/src/gpu_cache.rs`. This project
models that file's core.

- **Size classes.** A request for `n` blocks of 16 bytes is rounded up to one of
  twelve size classes (1, 2, 4, …, 256, 341, 512, 1024). Each class owns an
  intrusive free list (`FreeBlockLists`).
- **Slab allocator.** `Texture` carves a 1024-block row into items of one
  class when that class's free list is empty. It grows the texture height by
  ten rows when every row is in use. It threads every block onto either its
  class's free list or the occupied list, and evicts blocks unused for more
  than ten frames (`push_data`, `evict_old_blocks`, `utilization`).
- **Handles and epochs.** A `GpuCacheHandle` remembers a block index and the
  epoch the block had when it was handed out. Eviction, `invalidate` and
  `clear` move epochs on, so an old handle stops matching. On a miss,
  `request` hands out a `GpuDataRequest` cursor. The caller pushes blocks
  into it, and dropping it places them with `push_data`.
- **Frame lifecycle.** `new`, `clear`, `begin_frame`, `end_frame` with its
  reclaim timer, `should_reclaim_memory`, `extract_updates`, the per-frame
  pushes and `set_debug_flags`.

Modules:

| module | file | content |
|---|---|---|
| `Wrappers` | wrappers.dfy | `Option`, `Result`, `Outcome` |
| `FreeBlockLists` | free_block_lists.dfy | size classes and `BucketFor` (`get_actual_block_count_and_free_list`) |
| `BlockArena` | block_arena.dfy | blocks, addresses, locations, rows, commands. Also the specification of an intrusive list as a head plus the ghost sequence of indices it visits, and the block-size sums |
| `TextureModel` | texture_model.dfy | the texture as a value `TextureState`, its invariant `Valid`, and each allocator step (`Initial`, `Carve`, `Take`, `Allocate`, `Push`, `Release`/`Unlink`, `BumpEpoch`, `Touch`) as a function, with lemmas that each step keeps `Valid` |
| `TextureEviction` | texture_eviction.dfy | the eviction pass as a function `Evict` of the state before it, and what it does as a whole |
| `CacheTexture` | cache_texture.dfy | the class `Texture` with the source's fields. Its methods are proved to perform exactly the steps above: `State() == Step(old(State()))` |
| `GpuCacheFrontend` | gpu_cache_frontend.dfy | the class `GpuCache`, handles, the request cursor and the frame lifecycle |

The texture's invariant has four parts:
- Every block but the sentinel at index 0 is on exactly one list: the occupied list, or the free list of its row's size class.
- The allocated count is the sum of the occupied blocks' classes. Together with the free blocks it makes up the capacity of the carved rows.
- Every epoch lies between the base epoch and the watermark `maxEpoch`.
- A location handed out never runs ahead of its block's epoch. While it still matches, its block is occupied.

`GpuCache` adds one more invariant: every location handed out before a `clear` is below the new texture's base epoch, so it never matches again.

Two behaviours of the code a reader might not expect:
- On a miss, `request` always allows `MAX_VERTEX_TEXTURE_WIDTH` (1024) blocks. The row's class is read only on the hit path (gpu_cache.rs:720-737).
- Three 341-block items fill 1023 blocks of a row, not the whole row; one block per such row stays unused (gpu_cache.rs:362-366, `FreeBlockLists.ItemsPerRow`).

## Model

| member | source | states |
|---|---|---|
| FreeBlockLists.SizeClass | webrender/src/gpu_cache.rs:324-337 | every size class is between 1 and the row width of 1024 blocks |
| FreeBlockLists.SizeClassesIncreasing | webrender/src/gpu_cache.rs:324-337 | the twelve size classes are strictly increasing |
| FreeBlockLists.BucketFor | webrender/src/gpu_cache.rs:357-385 | succeeds iff 1 <= n <= 1024. Zero blocks and more than a row are the two distinct errors. The chosen list's class holds n, and every smaller class does not, so it is the smallest class that fits |
| FreeBlockLists.ActualBlockCount | webrender/src/gpu_cache.rs:357-385 | the actual block count is a size class, at least n, and no larger than any class that holds n |
| FreeBlockLists.BucketOfSizeClass | webrender/src/gpu_cache.rs:357-385 | a request of exactly a class's size is served by that class's own free list |
| FreeBlockLists.BucketOfMember | webrender/src/gpu_cache.rs:357-385 | the actual block count of a size class is the class itself |
| FreeBlockLists.ClassIndex | webrender/src/gpu_cache.rs:570-575 | the free list eviction picks from a row's class is the list of that class |
| FreeBlockLists.ClassIndexIsBucket | webrender/src/gpu_cache.rs:570-575 | eviction's lookup from the row's class and push_data's bucketing of that count pick the same free list |
| FreeBlockLists.ItemsPerRow | webrender/src/gpu_cache.rs:487 | a row of class c holds 1024 / c items. They fill the row exactly, except for class 341, which leaves one block unused |
| BlockArena.AdvanceEpoch | webrender/src/gpu_cache.rs:216-221 | the block's epoch rises by one and the watermark becomes the larger of the old watermark and the new epoch |
| BlockArena.IsListPush | webrender/src/gpu_cache.rs:511-516 | pushing a block on the front of an intrusive list yields the list with that block in front |
| BlockArena.IsListPop | webrender/src/gpu_cache.rs:509-511 | taking the head off an intrusive list leaves the rest of the list, headed by the old head's `next` |
| BlockArena.IsListUnlink | webrender/src/gpu_cache.rs:594-603 | pointing the predecessor (or the head) past a block removes exactly that block from the list, keeping the order |
| BlockArena.SumSizesSplit | webrender/src/gpu_cache.rs:566-581 | the occupied blocks' sizes split into those of the survivors and those of the evicted blocks |
| BlockArena.RowsCapacityBound | webrender/src/gpu_cache.rs:612-618 | the carved rows provide at most rows × 1024 blocks |
| TextureModel.InitialValid | webrender/src/gpu_cache.rs:432-454 | a new texture satisfies the invariant, with nothing allocated and nothing occupied |
| TextureModel.CarvedBlocks | webrender/src/gpu_cache.rs:487-501 | item j of a carved row sits at column j × c of that row, at the base epoch, stamped with the frame, and links to the item before it |
| TextureModel.CarvedBlocksFit | webrender/src/gpu_cache.rs:487-501 | the items of a carved row lie inside the row and do not overlap |
| TextureModel.CarveValid | webrender/src/gpu_cache.rs:480-504 | carving a row for an empty free list keeps the invariant |
| TextureModel.TakeValid | webrender/src/gpu_cache.rs:506-517 | taking the head of a non-empty free list onto the occupied list keeps the invariant |
| TextureModel.AllocateValid | webrender/src/gpu_cache.rs:476-517 | allocating, by carving if needed and then taking, keeps the invariant |
| TextureModel.AllocateTakes | webrender/src/gpu_cache.rs:476-517 | the allocated block was not occupied. It goes on the front of the occupied list, stamped with the frame, with the requested class. The allocated count grows by that class |
| TextureModel.AllocateCarves | webrender/src/gpu_cache.rs:480-504 | a row of the class is added exactly when its free list was empty. The height grows by ten exactly when, in addition, every row was in use. Epochs, pending blocks and copy commands are left alone |
| TextureModel.PushValid | webrender/src/gpu_cache.rs:470-546 | push_data keeps the invariant when its copy command reads blocks in the pending buffer |
| TextureModel.PushEffects | webrender/src/gpu_cache.rs:470-546 | the returned location matches its block, which is newly occupied, stamped with the frame and counted at its class. The location is recorded as handed out, and exactly the copy command for the pending blocks is queued |
| TextureModel.ReleaseValid | webrender/src/gpu_cache.rs:566-603 | releasing one occupied block onto its class's free list keeps the invariant |
| TextureModel.ReleaseUnlinks | webrender/src/gpu_cache.rs:566-603 | what the code does is the same as the specified release: find the free list from the row, bump the epoch, push the block, and unlink it through the previous survivor or the head |
| TextureModel.ReleaseStamps | webrender/src/gpu_cache.rs:566-581 | a release changes no stamp and no address, and advances the epoch of the released block alone |
| TextureModel.BumpEpochValid | webrender/src/gpu_cache.rs:706-715 | invalidating a block keeps the invariant and advances its epoch by one |
| TextureModel.TouchValid | webrender/src/gpu_cache.rs:726-730 | stamping a block with the current frame keeps the invariant |
| TextureModel.TouchUnchanged | webrender/src/gpu_cache.rs:727-730 | a block already stamped with the frame is left as it is |
| TextureModel.RecordValid | webrender/src/gpu_cache.rs:519-545 | recording a handed-out location of an occupied block, with copy commands that read pending blocks, keeps the invariant |
| TextureModel.IssuedBelowWatermark | webrender/src/gpu_cache.rs:689-691 | no location handed out has an epoch above `max_epoch`, so the next base epoch is above all of them |
| TextureModel.BelowBaseNeverMatches | webrender/src/gpu_cache.rs:687-693 | a location whose epoch is below the texture's base epoch matches no block |
| TextureModel.PendingGrowValid | webrender/src/gpu_cache.rs:634-639 | appending to the pending buffer keeps the invariant |
| TextureModel.DrainValid | webrender/src/gpu_cache.rs:807-815 | emptying the pending buffer and the copy commands together keeps the invariant |
| TextureEviction.EvictPrefixValid | webrender/src/gpu_cache.rs:549-610 | after the pass has visited any prefix of the occupied list, the invariant holds, and the occupied list is the survivors of the prefix followed by the unvisited rest |
| TextureEviction.EvictValid | webrender/src/gpu_cache.rs:549-610 | the pass keeps the invariant. The occupied list afterwards is the old list with the stale blocks removed, in the same order |
| TextureEviction.EvictOccupied | webrender/src/gpu_cache.rs:549-610 | a block is occupied after the pass iff it was occupied before and was used within the last ten frames |
| TextureEviction.EvictEpochs | webrender/src/gpu_cache.rs:566-581 | stamps and addresses are unchanged. The epoch of every evicted block, and only of those, advances by one |
| TextureEviction.EvictKeepsRecent | webrender/src/gpu_cache.rs:549-610 | after the pass, every handed-out location that still matches designates a block used within the last ten frames |
| TextureEviction.EvictFree | webrender/src/gpu_cache.rs:570-579 | each free list becomes its class's evicted blocks, the last one met first, in front of the old list |
| TextureEviction.EvictFreeMembers | webrender/src/gpu_cache.rs:570-579 | a free list gains exactly the evicted blocks of its class |
| TextureEviction.EvictCounts | webrender/src/gpu_cache.rs:581 | the allocated count falls by the evicted blocks' classes and equals the survivors' total. Rows, height, pending blocks and copy commands are untouched |
| CacheTexture.Texture.constructor | webrender/src/gpu_cache.rs:432-454 | the fields are the initial state: one sentinel block, no rows, empty lists, height 20, base epoch as given |
| CacheTexture.Texture.CarveRow | webrender/src/gpu_cache.rs:480-504 | the new state is the carve step of the state before |
| CacheTexture.Texture.CreateBlocks | webrender/src/gpu_cache.rs:494-501 | the loop appends exactly the row's carved items, and the last one created becomes the list head |
| CacheTexture.Texture.TakeFreeBlock | webrender/src/gpu_cache.rs:506-517 | the head of the free list is taken onto the occupied list (the take step), stamped with the frame |
| CacheTexture.Texture.AllocateBlock | webrender/src/gpu_cache.rs:476-517 | the new state is the allocate step, and the block returned heads the occupied list, stamped with the frame |
| CacheTexture.Texture.PushToList | webrender/src/gpu_cache.rs:476-527 | the new state is the push step, the location matches its block, and the copy command carries the block's address |
| CacheTexture.Texture.PushData | webrender/src/gpu_cache.rs:470-546 | an unbucketable count is an error and changes nothing. Otherwise the new state is the push step and the invariant holds. The debug log gains the Alloc entry only when debugging. The returned location matches a block stamped with the frame |
| CacheTexture.Texture.AdvanceBlockEpoch | webrender/src/gpu_cache.rs:711 | the new state is the epoch bump of the block |
| CacheTexture.Texture.TouchBlock | webrender/src/gpu_cache.rs:728 | the new state is the block stamped with the frame |
| CacheTexture.Texture.AppendPending | webrender/src/gpu_cache.rs:753 | the pending buffer is extended by the blocks, nothing else changes |
| CacheTexture.Texture.TakeUpdates | webrender/src/gpu_cache.rs:807-815 | the debug log, copy commands and pending blocks are handed over and left empty, nothing else changes |
| CacheTexture.Texture.Utilization | webrender/src/gpu_cache.rs:612-618 | undefined iff there are no rows. Otherwise it is the allocated count divided by rows × 1024 |
| CacheTexture.Texture.UtilizationBounded | webrender/src/gpu_cache.rs:616 | the ratio lies in [0, 1] when the allocated count fits in the rows |
| CacheTexture.AllocatedWithinRows | webrender/src/gpu_cache.rs:612-618 | under the invariant the allocated count fits in the rows, so the ratio's bound holds |
| CacheTexture.RatioBelowThreshold | webrender/src/gpu_cache.rs:787-789 | the ratio is below 0.2 iff the allocated count is below 0.2 × the rows' blocks |
| CacheTexture.Texture.ReachedThreshold | webrender/src/gpu_cache.rs:787-789 | true iff there are more than 20 rows and the allocated count is below 0.2 of their blocks |
| CacheTexture.Texture.FreeBlock | webrender/src/gpu_cache.rs:566-581 | the block gets the next epoch and goes on the front of the free list of its row's class, and its class leaves the allocated count |
| CacheTexture.Texture.UnlinkOccupied | webrender/src/gpu_cache.rs:594-603 | the predecessor, or the head when there is none, skips the block, which leaves the occupied list |
| CacheTexture.Texture.ReleaseAt | webrender/src/gpu_cache.rs:566-603 | the new state is the unlink step, and a Free entry is logged when debugging |
| CacheTexture.Texture.EvictVisit | webrender/src/gpu_cache.rs:561-603 | a block is evicted iff it is stale, and then released. Otherwise nothing changes |
| CacheTexture.Texture.EvictStep | webrender/src/gpu_cache.rs:556-607 | one loop iteration advances the state from the pass over i blocks to the pass over i + 1, and `prev_block` tracks the last survivor |
| CacheTexture.Texture.EvictOldBlocks | webrender/src/gpu_cache.rs:549-610 | the new state is the eviction pass of the state before and is valid. The debug log gains one Free per evicted block, in list order, only when debugging |
| GpuCacheFrontend.GpuCache.constructor | webrender/src/gpu_cache.rs:675-684 | invalid frame, a new texture at epoch 0, no saved blocks, debugging off |
| GpuCacheFrontend.GpuCache.GetAddress | webrender/src/gpu_cache.rs:827-833 | succeeds iff the handle still matches a block stamped with the current frame, and then gives that block's address. A matching handle fails only as not used this frame |
| GpuCacheFrontend.GpuCache.RetiredNeverMatch | webrender/src/gpu_cache.rs:687-693 | a location handed out before a clear never matches again, and its address cannot be obtained |
| GpuCacheFrontend.GpuCache.Clear | webrender/src/gpu_cache.rs:687-693 | with copy commands queued it fails and changes nothing. Otherwise the texture is new at base epoch `max_epoch + 1`, saved blocks reset, and every earlier location is retired |
| GpuCacheFrontend.GpuCache.BeginFrame | webrender/src/gpu_cache.rs:696-701 | with pending blocks it fails and changes nothing. Otherwise it enters the frame, the texture state is the eviction pass for it, and saved blocks reset |
| GpuCacheFrontend.GpuCache.Invalidate | webrender/src/gpu_cache.rs:706-715 | a matching handle's block moves to the next epoch, otherwise the texture's state is unchanged. The reclaim timer and the debug log are kept in both cases, and only blocks and the epoch watermark may change. Afterwards the handle misses, and every other handle on another block that matched still matches |
| GpuCacheFrontend.GpuCache.Request | webrender/src/gpu_cache.rs:719-748 | a hit iff the handle matches. A hit stamps the block with the frame, making its address available, and adds its class to the saved count on the first hit of the frame. A miss returns a cursor at the end of the pending buffer allowing 1024 blocks, and changes nothing |
| GpuCacheFrontend.GpuCache.PushBlock | webrender/src/gpu_cache.rs:634-639 | the block is appended to the pending buffer. Only the pending buffer may change, and the reclaim timer and the debug log are stated unchanged |
| GpuCacheFrontend.GpuCache.AppendBlocks | webrender/src/gpu_cache.rs:752-753 | the blocks are appended to the pending buffer, the rest of the texture state is unchanged and the invariant is kept |
| GpuCacheFrontend.GpuCache.CurrentUsedBlockNum | webrender/src/gpu_cache.rs:641-643 | the count of blocks pushed since the cursor's start |
| GpuCacheFrontend.GpuCache.Commit | webrender/src/gpu_cache.rs:646-656 | more blocks than the cursor allows, or none, is an error that changes nothing. Otherwise the blocks are placed by push_data with a copy from the cursor's start, and the returned handle matches a block stamped with the cursor's frame. The debug log gains the Alloc entry only when debugging, and the reclaim timer is kept |
| GpuCacheFrontend.GpuCache.PushPerFrameBlocks | webrender/src/gpu_cache.rs:751-760 | the blocks are appended and placed by push_data with a copy from where they start. The handle matches a block stamped with the frame, and the debug log gains the Alloc entry only when debugging. An unbucketable count is an error after the append, with the debug log unchanged. The reclaim timer is kept on both paths |
| GpuCacheFrontend.GpuCache.PushDeferredPerFrameBlocks | webrender/src/gpu_cache.rs:764-769 | room is placed by push_data without a copy command, and the handle matches a block stamped with the frame. The debug log gains the Alloc entry only when debugging, and the reclaim timer is kept. An unbucketable count is an error that changes nothing |
| GpuCacheFrontend.GpuCache.EndFrame | webrender/src/gpu_cache.rs:773-798 | the counters are the rows, allocated and saved blocks. With low utilization the reclaim timer starts at `now` or keeps its earlier start. Otherwise it stops. The frame is returned |
| GpuCacheFrontend.GpuCache.ShouldReclaimMemory | webrender/src/gpu_cache.rs:801-804 | true iff the timer is running and more than five seconds have elapsed since it started |
| GpuCacheFrontend.Elapsed | webrender/src/gpu_cache.rs:803 | the time from the start to `now`, zero if the clock went back |
| GpuCacheFrontend.GpuCache.ExtractUpdates | webrender/src/gpu_cache.rs:807-815 | hands over frame, height, debug log, copy commands and pending blocks, leaving the queues empty. Every copy command reads blocks inside the list handed over |
| GpuCacheFrontend.GpuCache.SetDebugFlags | webrender/src/gpu_cache.rs:818-821 | the cache and its texture take the new flag. Only the two flags may change, and the texture state, frame, saved count, retired locations, reclaim timer and debug log are stated unchanged |

## Left out

- GpuBlockData: the four `f32` of a block are an opaque type. The conversions from colours and rectangles (gpu_cache.rs:89-130) and the `ToGpuBlocks` trait are not modelled.
- CacheTexture.Texture.Utilization: the ratio is an exact real, not an `f32`. Rounding at the 0.2 threshold is not modelled.
- BlockArena.AdvanceEpoch: epochs are unbounded. The `u32` wrap-around of `Epoch::next` is not modelled, so an epoch that wraps back onto a live handle is not considered.
- GpuCacheAddress: columns and rows are unbounded naturals. The `u16` truncation in `GpuCacheAddress::new` and `Add` is not modelled. The texture height is a natural, not an `i32`.
- BlockIndex: a block index is an unbounded positive natural. The `debug_assert!` that it fits in a `u32`, and the `as u32` truncation with its zero-index panic in `BlockIndex::new` (gpu_cache.rs:243-246), are not modelled.
- `malloc_size_of` (heap reporting through a foreign callback) is not modelled.
- Time: `Instant::now` and `elapsed` become a `now` parameter in nanoseconds.
- DebugFlags: the flag set becomes the single `GPU_CACHE_DBG` bit, as a `bool`.
- The profile counters are returned by `EndFrame` as a value rather than set through `&mut`. The handle likewise is returned by `Commit` and the per-frame pushes rather than written through `&mut`.
- GpuDataRequest: the borrow of the texture is not modelled. `Commit` and `CurrentUsedBlockNum` require the cursor's start to lie within the pending buffer, which the borrow guarantees in the source.
- Panics and debug assertions are modelled as error results that change nothing, not as unchanged behaviour in release builds. This covers:
  - the bucketing panics, and `clear`'s assertion;
  - the `debug_assert`s of `begin_frame`, of the drop of `GpuDataRequest`, and of `get_address`;
  - the `debug_assert!(total_blocks > 0)` of `utilization` (gpu_cache.rs:614), which becomes `None` at CacheTexture.Texture.Utilization.
  In a release build the source would go on past the `debug_assert`s.
- `FrameId` is defined outside gpu_cache.rs. It is modelled as a natural with the invalid frame 0, and `FrameId + usize` as unbounded addition.
- The callers (the frame builder, the renderer that applies the updates) and capture/replay serialisation are not part of this model.
