/**
 * The interface of the GPU cache (`GpuCache` in gpu_cache.rs): handles
 * that name a cache location, the request protocol that either reuses the
 * data a handle still designates or lets the caller write new blocks and
 * commit them, per-frame uploads, and the frame lifecycle (begin, end,
 * extract the updates, clear, decide to reclaim memory).
 *
 * A handle is a value here; the operations that fill one in the source
 * (`GpuDataRequest`'s drop, the per-frame pushes) return the new handle.
 */
module GpuCacheFrontend {
  import opened Wrappers
  import opened FreeBlockLists
  import opened BlockArena
  import opened TextureModel
  import opened TextureEviction
  import opened CacheTexture

  /** How long utilization must stay low before memory is reclaimed, in seconds. */
  const RECLAIM_DELAY_S: nat := 5

  /** Clock readings are in nanoseconds. */
  const NANOS_PER_SEC: nat := 1_000_000_000

  /** A handle to cached data: the location it was last given, if any. */
  datatype GpuCacheHandle = GpuCacheHandle(location: Option<CacheLocation>)

  /** A handle that was never requested. */
  const UNBOUND_HANDLE: GpuCacheHandle := GpuCacheHandle(None)

  /**
   * The cursor a missed `request` hands out: the frame it belongs to, where
   * its blocks start in the pending buffer and how many it may write.
   */
  datatype GpuDataRequest = GpuDataRequest(frameId: nat, startIndex: nat, maxBlockCount: nat)

  /** What `extract_updates` hands to the render thread. */
  datatype GpuCacheUpdateList = GpuCacheUpdateList(
    frameId: nat,
    height: nat,
    debugCommands: seq<GpuCacheDebugCmd>,
    updates: seq<GpuCacheUpdate>,
    blocks: seq<GpuBlockData>)

  /** The profile counters `end_frame` sets. */
  datatype ProfileCounters = ProfileCounters(allocatedRows: nat, allocatedBlocks: nat, savedBlocks: nat)

  /** The assertions of `clear` and `begin_frame`. */
  datatype FrameError = PendingUpdates | PendingBlocks

  /** The ways committing a request fails: too many blocks written, or a count no size class serves. */
  datatype CommitError = TooManyBlocks | Unbucketed(error: BucketError)

  /** The ways `get_address` fails. */
  datatype AddressError = NotRequested | OutOfRange | EpochMismatch | NotUsedThisFrame

  /** A handle whose location still designates the live contents of its block. */
  predicate Hit(blocks: seq<Block>, handle: GpuCacheHandle)
  {
    handle.location.Some? && Matches(blocks, handle.location.value)
  }

  class GpuCache {
    // The current frame.
    var frameId: nat
    // The CPU-side texture allocator.
    var texture: Texture
    // Blocks requested this frame that did not need to be uploaded again.
    var savedBlockCount: nat
    // Whether the debug display is enabled.
    var debugFlags: bool

    // Every location handed out by a texture that `clear` has since replaced.
    ghost var retired: set<CacheLocation>

    /**
     * The texture is valid and shares the debug flag, and every location
     * handed out before the last `clear` is below the current base epoch.
     */
    ghost predicate Valid()
      reads this`texture, this`debugFlags, this`retired, texture
    {
      && texture.Valid()
      && texture.debugFlags == debugFlags
      && (forall loc :: loc in retired ==> loc.epoch < texture.baseEpoch)
    }

    /** `GpuCache::new`: an empty texture at epoch 0, no frame begun yet. */
    constructor ()
      ensures Valid() && fresh(texture)
      ensures frameId == INVALID_FRAME && savedBlockCount == 0 && !debugFlags && retired == {}
      ensures texture.State() == Initial(0) && texture.reachedReclaimThreshold == None && texture.debugCommands == []
    {
      frameId := INVALID_FRAME;
      texture := new Texture(0, false);
      savedBlockCount := 0;
      debugFlags := false;
      retired := {};
    }

    /**
     * `get_address`: the address of the block a handle designates. It is
     * only meant for a handle requested (and so stamped) in the current
     * frame: an unbound handle, an index outside the arena, a stale epoch
     * or a block not used this frame is an error.
     */
    function GetAddress(handle: GpuCacheHandle): (r: Result<GpuCacheAddress, AddressError>)
      reads this, texture
      ensures r.Ok? <==> Hit(texture.blocks, handle)
                          && texture.blocks[handle.location.value.blockIndex].lastAccessTime == frameId
      ensures r.Ok? ==> r.value == texture.blocks[handle.location.value.blockIndex].address
      ensures Hit(texture.blocks, handle) <==> r.Ok? || r == Err(NotUsedThisFrame)
    {
      if handle.location.None? then Err(NotRequested)
      else
        var location := handle.location.value;
        if location.blockIndex >= |texture.blocks| then Err(OutOfRange)
        else
          var block := texture.blocks[location.blockIndex];
          if block.epoch != location.epoch then Err(EpochMismatch)
          else if block.lastAccessTime != frameId then Err(NotUsedThisFrame)
          else Ok(block.address)
    }

    /** A location handed out before a `clear` never matches a block again. */
    lemma RetiredNeverMatch(loc: CacheLocation)
      requires Valid() && loc in retired
      ensures !Matches(texture.blocks, loc)
      ensures GetAddress(GpuCacheHandle(Some(loc))).Err?
    {
      BelowBaseNeverMatches(texture.State(), loc);
    }

    /**
     * `clear`: drop every block by starting a new texture whose base epoch
     * is past every epoch handed out so far. Clearing with copy commands
     * still queued is an error and changes nothing.
     */
    method Clear() returns (r: Outcome<FrameError>)
      requires Valid()
      modifies this
      ensures Valid() && frameId == old(frameId) && debugFlags == old(debugFlags)
      ensures old(texture.updates) != [] ==>
        r == Fail(PendingUpdates) && texture == old(texture) && savedBlockCount == old(savedBlockCount) && retired == old(retired)
      ensures old(texture.updates) == [] ==>
        && r == Pass && fresh(texture)
        && texture.State() == Initial(old(texture.maxEpoch) + 1)
        && texture.reachedReclaimThreshold == None && texture.debugCommands == []
        && savedBlockCount == 0
        && retired == old(retired) + old(texture.issued)
    {
      if texture.updates != [] {
        return Fail(PendingUpdates);
      }
      IssuedBelowWatermark(texture.State());
      var nextBaseEpoch := texture.maxEpoch + 1;
      retired := retired + texture.issued;
      texture := new Texture(nextBaseEpoch, debugFlags);
      savedBlockCount := 0;
      r := Pass;
    }

    /**
     * `begin_frame`: enter frame `frameId` and evict every block left
     * unused for FRAMES_BEFORE_EVICTION frames. Beginning a frame with
     * blocks still pending is an error and changes nothing.
     */
    method BeginFrame(frameId: nat) returns (r: Outcome<FrameError>)
      requires Valid()
      modifies this, texture
      ensures Valid() && texture == old(texture) && retired == old(retired) && debugFlags == old(debugFlags)
      ensures texture.reachedReclaimThreshold == old(texture.reachedReclaimThreshold)
      ensures old(texture.pendingBlocks) != [] ==>
        && r == Fail(PendingBlocks) && this.frameId == old(this.frameId) && savedBlockCount == old(savedBlockCount)
        && texture.State() == old(texture.State()) && texture.debugCommands == old(texture.debugCommands)
      ensures old(texture.pendingBlocks) == [] ==>
        && r == Pass && this.frameId == frameId && savedBlockCount == 0
        && texture.State() == Evict(old(texture.State()), frameId)
        && texture.debugCommands == old(texture.debugCommands)
             + (if debugFlags then FreeCommands(old(texture.blocks), Evicted(old(texture.blocks), old(texture.occupied), frameId)) else [])
    {
      if texture.pendingBlocks != [] {
        return Fail(PendingBlocks);
      }
      ghost var t0 := texture.State();
      this.frameId := frameId;
      texture.EvictOldBlocks(frameId);
      EvictCounts(t0, frameId);
      savedBlockCount := 0;
      r := Pass;
    }

    /**
     * `invalidate`: a handle that still matches its block moves that block
     * to a new epoch, so that the next request for it misses and the data
     * is written again. A handle that no longer matches changes nothing.
     */
    method Invalidate(handle: GpuCacheHandle)
      requires Valid()
      modifies texture`blocks, texture`maxEpoch
      ensures Valid()
      ensures texture.reachedReclaimThreshold == old(texture.reachedReclaimThreshold)
      ensures texture.debugCommands == old(texture.debugCommands)
      ensures texture.State() == if Hit(old(texture.blocks), handle)
        then BumpEpoch(old(texture.State()), handle.location.value.blockIndex)
        else old(texture.State())
      ensures !Hit(texture.blocks, handle)
      ensures forall h :: Hit(old(texture.blocks), h)
                 && (handle.location.None? || h.location.value.blockIndex != handle.location.value.blockIndex)
                 ==> Hit(texture.blocks, h)
    {
      if handle.location.Some? {
        var location := handle.location.value;
        if location.blockIndex < |texture.blocks| && texture.blocks[location.blockIndex].epoch == location.epoch {
          BumpEpochValid(texture.State(), location.blockIndex);
          texture.AdvanceBlockEpoch(location.blockIndex);
        }
      }
    }

    /**
     * `request`: a handle that still matches its block is a hit, and no
     * data needs writing; the block is stamped with the current frame, and
     * the first hit of a frame adds its size class to the saved count. A
     * miss returns a cursor at the end of the pending buffer, allowed a
     * full row of blocks.
     */
    method Request(handle: GpuCacheHandle) returns (r: Option<GpuDataRequest>)
      requires Valid()
      modifies this, texture
      ensures Valid() && texture == old(texture) && frameId == old(frameId) && retired == old(retired)
      ensures debugFlags == old(debugFlags) && texture.debugCommands == old(texture.debugCommands)
      ensures texture.reachedReclaimThreshold == old(texture.reachedReclaimThreshold)
      ensures r.None? <==> Hit(old(texture.blocks), handle)
      ensures r.None? ==>
        var x := handle.location.value.blockIndex;
        && texture.State() == Touch(old(texture.State()), x, frameId)
        && savedBlockCount == old(savedBlockCount) + (if old(texture.blocks[x].lastAccessTime) == frameId then 0 else old(texture.blockSize[x]))
        && Hit(texture.blocks, handle) && texture.blocks[x].lastAccessTime == frameId
      ensures r.Some? ==>
        && r.value == GpuDataRequest(frameId, |texture.pendingBlocks|, MAX_VERTEX_TEXTURE_WIDTH)
        && texture.State() == old(texture.State()) && savedBlockCount == old(savedBlockCount)
    {
      var maxBlockCount := MAX_VERTEX_TEXTURE_WIDTH;
      if handle.location.Some? {
        var location := handle.location.value;
        if location.blockIndex < |texture.blocks| {
          var block := texture.blocks[location.blockIndex];
          if block.epoch == location.epoch {
            ghost var t := texture.State();
            maxBlockCount := texture.rows[block.address.v].blockCountPerItem;
            TouchValid(t, location.blockIndex, frameId);
            if block.lastAccessTime != frameId {
              texture.TouchBlock(location.blockIndex, frameId);
              savedBlockCount := savedBlockCount + maxBlockCount;
            } else {
              TouchUnchanged(t, location.blockIndex, frameId);
            }
            return None;
          }
        }
      }
      r := Some(GpuDataRequest(frameId, |texture.pendingBlocks|, maxBlockCount));
    }

    /** `GpuDataRequest::push`: append one block to the pending buffer. */
    method PushBlock(block: GpuBlockData)
      requires Valid()
      modifies texture`pendingBlocks
      ensures Valid()
      ensures texture.reachedReclaimThreshold == old(texture.reachedReclaimThreshold)
      ensures texture.debugCommands == old(texture.debugCommands)
      ensures texture.State() == old(texture.State()).(pendingBlocks := old(texture.pendingBlocks) + [block])
    {
      PendingGrowValid(texture.State(), [block]);
      texture.AppendPending([block]);
    }

    /** Append `blocks` to the pending buffer, as `extend_from_slice` does. */
    method AppendBlocks(blocks: seq<GpuBlockData>)
      requires Valid()
      modifies texture`pendingBlocks
      ensures Valid()
      ensures texture.State() == old(texture.State()).(pendingBlocks := old(texture.pendingBlocks) + blocks)
    {
      PendingGrowValid(texture.State(), blocks);
      texture.AppendPending(blocks);
    }

    /** `current_used_block_num`: how many blocks were pushed since `req` was handed out. */
    function CurrentUsedBlockNum(req: GpuDataRequest): (n: nat)
      reads this, texture
      requires req.startIndex <= |texture.pendingBlocks|
      ensures req.startIndex + n == |texture.pendingBlocks|
    {
      |texture.pendingBlocks| - req.startIndex
    }

    /**
     * The drop of a `GpuDataRequest`: the blocks pushed since the cursor was
     * handed out are placed with `push_data`, copied from the pending
     * buffer, and the new handle designates them: in the cursor's frame its
     * address is available. Writing more than the cursor allows, or a count
     * no size class serves (none at all), is an error and changes nothing.
     */
    method Commit(req: GpuDataRequest) returns (r: Result<GpuCacheHandle, CommitError>)
      requires Valid() && req.startIndex <= |texture.pendingBlocks|
      modifies texture
      ensures Valid() && texture.reachedReclaimThreshold == old(texture.reachedReclaimThreshold)
      ensures var n := old(CurrentUsedBlockNum(req));
        && (n > req.maxBlockCount ==> r == Err(TooManyBlocks) && unchanged(texture))
        && (n <= req.maxBlockCount && BucketFor(n).Err? ==> r == Err(Unbucketed(BucketFor(n).error)) && unchanged(texture))
        && (n <= req.maxBlockCount && BucketFor(n).Ok? ==>
              var loc := AllocatedAt(old(texture.State()), BucketFor(n).value, req.frameId);
              && r == Ok(GpuCacheHandle(Some(loc)))
              && texture.State() == Push(old(texture.State()), BucketFor(n).value, req.frameId, Some(req.startIndex), n)
              && Hit(texture.blocks, r.value) && texture.blocks[loc.blockIndex].lastAccessTime == req.frameId
              && texture.debugCommands == old(texture.debugCommands)
                   + (if texture.debugFlags then [Alloc(texture.blocks[loc.blockIndex].address, n)] else []))
    {
      var blockCount := CurrentUsedBlockNum(req);
      if blockCount > req.maxBlockCount {
        return Err(TooManyBlocks);
      }
      var location := texture.PushData(Some(req.startIndex), blockCount, req.frameId);
      if location.Err? {
        return Err(Unbucketed(location.error));
      }
      r := Ok(GpuCacheHandle(Some(location.value)));
    }

    /**
     * `push_per_frame_blocks`: append `blocks` to the pending buffer and
     * place them with `push_data`, copied from there, for data that changes
     * every frame; the handle's address is available this frame. Zero
     * blocks, or more than a row holds, is an error once the blocks are
     * appended.
     */
    method PushPerFrameBlocks(blocks: seq<GpuBlockData>) returns (r: Result<GpuCacheHandle, BucketError>)
      requires Valid()
      modifies texture
      ensures Valid() && texture.reachedReclaimThreshold == old(texture.reachedReclaimThreshold)
      ensures var t := old(texture.State()).(pendingBlocks := old(texture.pendingBlocks) + blocks);
        && (BucketFor(|blocks|).Err? ==>
              r == Err(BucketFor(|blocks|).error) && texture.State() == t && texture.debugCommands == old(texture.debugCommands))
        && (BucketFor(|blocks|).Ok? ==>
              var loc := AllocatedAt(t, BucketFor(|blocks|).value, frameId);
              && r == Ok(GpuCacheHandle(Some(loc)))
              && texture.State() == Push(t, BucketFor(|blocks|).value, frameId, Some(old(|texture.pendingBlocks|)), |blocks|)
              && Hit(texture.blocks, r.value) && texture.blocks[loc.blockIndex].lastAccessTime == frameId
              && texture.debugCommands == old(texture.debugCommands)
                   + (if texture.debugFlags then [Alloc(texture.blocks[loc.blockIndex].address, |blocks|)] else []))
    {
      var startIndex := |texture.pendingBlocks|;
      AppendBlocks(blocks);
      var location := texture.PushData(Some(startIndex), |blocks|, frameId);
      if location.Err? {
        return Err(location.error);
      }
      r := Ok(GpuCacheHandle(Some(location.value)));
    }

    /**
     * `push_deferred_per_frame_blocks`: reserve room for `blockCount`
     * blocks that the render thread fills itself, so no copy command is
     * queued; the handle's address is available this frame.
     */
    method PushDeferredPerFrameBlocks(blockCount: nat) returns (r: Result<GpuCacheHandle, BucketError>)
      requires Valid()
      modifies texture
      ensures Valid() && texture.reachedReclaimThreshold == old(texture.reachedReclaimThreshold)
      ensures BucketFor(blockCount).Err? ==> r == Err(BucketFor(blockCount).error) && unchanged(texture)
      ensures BucketFor(blockCount).Ok? ==>
        var loc := AllocatedAt(old(texture.State()), BucketFor(blockCount).value, frameId);
        && r == Ok(GpuCacheHandle(Some(loc)))
        && texture.State() == Push(old(texture.State()), BucketFor(blockCount).value, frameId, None, blockCount)
        && Hit(texture.blocks, r.value) && texture.blocks[loc.blockIndex].lastAccessTime == frameId
        && texture.debugCommands == old(texture.debugCommands)
             + (if texture.debugFlags then [Alloc(texture.blocks[loc.blockIndex].address, blockCount)] else [])
    {
      // `push_data` panics on a count no size class serves.
      if BucketFor(blockCount).Err? {
        return Err(BucketFor(blockCount).error);
      }
      var location := texture.PushData(None, blockCount, frameId);
      r := Ok(GpuCacheHandle(Some(location.value)));
    }

    /**
     * `end_frame`: report the counters, and start the reclaim timer at
     * `now` when utilization is low (keeping an earlier start), or stop it
     * when it is not. The frame is returned.
     */
    method EndFrame(now: nat) returns (id: nat, counters: ProfileCounters)
      requires Valid()
      modifies texture
      ensures Valid() && texture.State() == old(texture.State()) && texture.debugCommands == old(texture.debugCommands)
      ensures id == frameId
      ensures counters == ProfileCounters(|texture.rows|, texture.allocatedBlockCount, savedBlockCount)
      ensures texture.reachedReclaimThreshold ==
        if LowUtilization(|texture.rows|, texture.allocatedBlockCount)
        then (if old(texture.reachedReclaimThreshold).Some? then old(texture.reachedReclaimThreshold) else Some(now))
        else None
    {
      counters := ProfileCounters(|texture.rows|, texture.allocatedBlockCount, savedBlockCount);
      var reachedThreshold := texture.ReachedThreshold();
      if reachedThreshold {
        if texture.reachedReclaimThreshold.None? {
          texture.reachedReclaimThreshold := Some(now);
        }
      } else {
        texture.reachedReclaimThreshold := None;
      }
      id := frameId;
    }

    /**
     * `should_reclaim_memory`: utilization has been low since a time more
     * than RECLAIM_DELAY_S seconds before `now`.
     */
    function ShouldReclaimMemory(now: nat): (r: bool)
      reads this, texture
      ensures r ==> texture.reachedReclaimThreshold.Some?
      ensures texture.reachedReclaimThreshold.Some? ==>
        (r <==> now - texture.reachedReclaimThreshold.value > RECLAIM_DELAY_S * NANOS_PER_SEC)
    {
      match texture.reachedReclaimThreshold
      case None => false
      case Some(t) => Elapsed(t, now) > RECLAIM_DELAY_S * NANOS_PER_SEC
    }

    /** `extract_updates`: hand over the frame's upload work, leaving the queues empty. */
    method ExtractUpdates() returns (list: GpuCacheUpdateList)
      requires Valid()
      modifies texture
      ensures Valid()
      ensures list == GpuCacheUpdateList(frameId, old(texture.height), old(texture.debugCommands),
                                         old(texture.updates), old(texture.pendingBlocks))
      ensures forall u :: u in list.updates ==> u.blockIndex + u.blockCount <= |list.blocks|
      ensures texture.State() == old(texture.State()).(pendingBlocks := [], updates := [])
      ensures texture.debugCommands == [] && texture.reachedReclaimThreshold == old(texture.reachedReclaimThreshold)
    {
      DrainValid(texture.State());
      var commands, copies, data := texture.TakeUpdates();
      list := GpuCacheUpdateList(frameId, texture.height, commands, copies, data);
    }

    /** `set_debug_flags`: the cache and its texture take the new flag together. */
    method SetDebugFlags(flags: bool)
      requires Valid()
      modifies this`debugFlags, texture`debugFlags
      ensures Valid() && debugFlags == flags && texture.debugFlags == flags
      ensures texture == old(texture) && texture.State() == old(texture.State())
      ensures frameId == old(frameId) && savedBlockCount == old(savedBlockCount) && retired == old(retired)
      ensures texture.reachedReclaimThreshold == old(texture.reachedReclaimThreshold)
      ensures texture.debugCommands == old(texture.debugCommands)
    {
      debugFlags := flags;
      texture.debugFlags := flags;
    }
  }

  /** `Instant::elapsed`: the time from `since` to `now`, zero if the clock went back. */
  function Elapsed(since: nat, now: nat): (d: nat)
    ensures now >= since ==> d + since == now
    ensures now < since ==> d == 0
  {
    if now >= since then now - since else 0
  }
}
