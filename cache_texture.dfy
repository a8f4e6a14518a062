/**
 * The CPU-side model of the GPU cache texture (`Texture` in gpu_cache.rs):
 * a slab allocator over an arena of blocks. Each row of the texture is
 * carved into items of one size class; every block is threaded either on
 * the free list of its class or on the occupied list.
 *
 * Each method is proved to perform exactly one of the steps of
 * TextureModel (or the whole pass of TextureEviction) on `State()`, the
 * value of its fields; the lemmas there state what those steps mean.
 */
module CacheTexture {
  import opened Wrappers
  import opened FreeBlockLists
  import opened BlockArena
  import opened TextureModel
  import opened TextureEviction

  /** The address of block `x`, or the origin for an index outside the arena. */
  function AddressOf(blocks: seq<Block>, x: nat): GpuCacheAddress
  {
    if x < |blocks| then blocks[x].address else GpuCacheAddress(0, 0)
  }

  /** The debug commands that report the eviction of the blocks `s`, in order. */
  ghost function FreeCommands(blocks: seq<Block>, s: seq<BlockIndex>): seq<GpuCacheDebugCmd>
  {
    if s == [] then [] else FreeCommands(blocks, s[..|s| - 1]) + [Free(AddressOf(blocks, s[|s| - 1]))]
  }

  lemma FreeCommandsSnoc(blocks: seq<Block>, s: seq<BlockIndex>, x: BlockIndex)
    ensures FreeCommands(blocks, s + [x]) == FreeCommands(blocks, s) + [Free(AddressOf(blocks, x))]
  {
    assert (s + [x])[..|s|] == s;
  }

  /** Appending one step's optional `Free` command to the debug log. */
  lemma LogStep(log0: seq<GpuCacheDebugCmd>, a: seq<GpuCacheDebugCmd>, c: GpuCacheDebugCmd, debug: bool, evicted: bool)
    ensures (log0 + (if debug then a else [])) + (if evicted && debug then [c] else [])
      == log0 + (if debug then a + (if evicted then [c] else []) else [])
  {
    if debug && evicted {
      assert (log0 + a) + [c] == log0 + (a + [c]);
    } else if debug {
      assert a + [] == a;
    }
  }

  /**
   * What step `i` of the eviction walk needs to know about the state it
   * has reached: block `occupied[i]` still has the stamp, address and link
   * it started with; a stale one is unlinked through the last survivor; a
   * kept one leaves the state as it is; and the log and cursor move on as
   * `StepLog` says.
   */
  ghost predicate StepReady(t0: TextureState, frameId: nat, i: nat)
    requires i < |t0.occupied|
  {
    var t := EvictPrefix(t0, frameId, i); var x := t0.occupied[i];
      var s := Survivors(t0.blocks, t0.occupied[..i], frameId);
      && x < |t0.blocks| && x < |t.blocks|
      && t.blocks[x].lastAccessTime == t0.blocks[x].lastAccessTime
      && t.blocks[x].address == t0.blocks[x].address
      && t.blocks[x].next == (if i + 1 < |t0.occupied| then Some(t0.occupied[i + 1]) else None)
      && (IsStale(t0.blocks[x], frameId) ==>
            CanUnlink(t, |s|, x, LastOf(s)) && EvictPrefix(t0, frameId, i + 1) == Unlink(t, |s|, x, LastOf(s)))
      && (!IsStale(t0.blocks[x], frameId) ==> EvictPrefix(t0, frameId, i + 1) == t)
      && FreeCommands(t0.blocks, Evicted(t0.blocks, t0.occupied[..i + 1], frameId))
           == FreeCommands(t0.blocks, Evicted(t0.blocks, t0.occupied[..i], frameId))
              + (if IsStale(t0.blocks[x], frameId) then [Free(t0.blocks[x].address)] else [])
      && LastOf(Survivors(t0.blocks, t0.occupied[..i + 1], frameId))
           == if IsStale(t0.blocks[x], frameId) then LastOf(s) else Some(x)
  }

  /** Every step of the walk over a valid texture is ready. */
  lemma EvictStepFacts(t0: TextureState, frameId: nat, i: nat)
    requires t0.Valid() && i < |t0.occupied|
    ensures StepReady(t0, frameId, i)
  {
    VisitBlock(t0, frameId, i);
    StepLog(t0.blocks, t0.occupied, i, frameId);
    if IsStale(t0.blocks[t0.occupied[i]], frameId) {
      VisitStale(t0, frameId, i);
    } else {
      StepKept(t0, frameId, i);
    }
  }

  /**
   * One step of the eviction walk on the debug log and on the cursor: a
   * stale block adds its `Free` command, a kept one becomes the last survivor.
   */
  lemma StepLog(blocks: seq<Block>, s: seq<BlockIndex>, i: nat, frameId: nat)
    requires i < |s| && s[i] < |blocks|
    ensures FreeCommands(blocks, Evicted(blocks, s[..i + 1], frameId))
      == FreeCommands(blocks, Evicted(blocks, s[..i], frameId))
         + (if IsStale(blocks[s[i]], frameId) then [Free(blocks[s[i]].address)] else [])
    ensures LastOf(Survivors(blocks, s[..i + 1], frameId))
      == if IsStale(blocks[s[i]], frameId) then LastOf(Survivors(blocks, s[..i], frameId)) else Some(s[i])
  {
    PrefixSnoc(blocks, [], s, i, frameId);
    if IsStale(blocks[s[i]], frameId) {
      FreeCommandsSnoc(blocks, Evicted(blocks, s[..i], frameId), s[i]);
    } else {
      assert FreeCommands(blocks, Evicted(blocks, s[..i], frameId)) + [] == FreeCommands(blocks, Evicted(blocks, s[..i], frameId));
    }
  }


  /** The reclaim test: utilization below this share of the carved rows. */
  const RECLAIM_THRESHOLD: real := 0.2

  /** Whether utilization is low: fewer allocated blocks than the threshold share of the rows' blocks. */
  predicate LowUtilization(rowCount: nat, usedBlocks: nat)
  {
    rowCount > GPU_CACHE_INITIAL_HEIGHT
      && (usedBlocks as real) < RECLAIM_THRESHOLD * ((rowCount * MAX_VERTEX_TEXTURE_WIDTH) as real)
  }

  /** The ratio test of `end_frame` is the threshold test on the counts. */
  lemma RatioBelowThreshold(usedBlocks: nat, total: nat, q: real)
    requires total > 0 && q * total as real == usedBlocks as real
    ensures q < RECLAIM_THRESHOLD <==> (usedBlocks as real) < RECLAIM_THRESHOLD * total as real
  {
    if q < RECLAIM_THRESHOLD {
      assert q * total as real < RECLAIM_THRESHOLD * total as real;
    } else {
      assert q * total as real >= RECLAIM_THRESHOLD * total as real;
    }
  }

  /** The allocated blocks of a valid texture fit in its rows. */
  lemma AllocatedWithinRows(t: TextureState)
    requires t.Valid()
    ensures t.allocatedBlockCount <= |t.rows| * MAX_VERTEX_TEXTURE_WIDTH
  {
    RowsCapacityBound(t.rows);
  }

  /** A ratio of a part to a positive whole lies between 0 and 1. */
  lemma RatioBounded(part: real, whole: real, q: real)
    requires 0.0 <= part <= whole && 0.0 < whole && q * whole == part
    ensures 0.0 <= q <= 1.0
  {
  }

  class Texture {
    // Current texture height, in rows.
    var height: nat
    // Every block created for this texture; index 0 holds INVALID_BLOCK.
    var blocks: seq<Block>
    // The size class of each carved row.
    var rows: seq<Row>
    // The epoch new blocks start at.
    var baseEpoch: nat
    // The largest epoch any block of this texture has reached.
    var maxEpoch: nat
    // Heads of the twelve free lists, one per size class.
    var freeLists: seq<Option<BlockIndex>>
    // Head of the list of occupied blocks.
    var occupiedListHead: Option<BlockIndex>
    // Blocks written this frame, waiting to be uploaded.
    var pendingBlocks: seq<GpuBlockData>
    // Copy commands for the pending blocks.
    var updates: seq<GpuCacheUpdate>
    // Sum of the size classes of the occupied blocks.
    var allocatedBlockCount: nat
    // When utilization first fell below the reclaim threshold, if it still is.
    var reachedReclaimThreshold: Option<nat>
    // Advisory log for the debug display.
    var debugCommands: seq<GpuCacheDebugCmd>
    // Whether the debug display is enabled.
    var debugFlags: bool

    // The size class of each block, as its row records it.
    ghost var blockSize: seq<nat>
    // The indices on the occupied list, from its head.
    ghost var occupied: seq<BlockIndex>
    // The indices on each free list, from its head.
    ghost var free: seq<seq<BlockIndex>>
    // Every location this texture has handed out.
    ghost var issued: set<CacheLocation>

    /** The allocator fields as a value. */
    ghost function State(): TextureState
      reads this`height, this`blocks, this`rows, this`baseEpoch, this`maxEpoch, this`freeLists,
            this`occupiedListHead, this`pendingBlocks, this`updates, this`allocatedBlockCount,
            this`blockSize, this`occupied, this`free, this`issued
    {
      TextureState(height, blocks, rows, baseEpoch, maxEpoch, freeLists, occupiedListHead,
                   pendingBlocks, updates, allocatedBlockCount, blockSize, occupied, free, issued)
    }

    ghost predicate Valid()
      reads this`height, this`blocks, this`rows, this`baseEpoch, this`maxEpoch, this`freeLists,
            this`occupiedListHead, this`pendingBlocks, this`updates, this`allocatedBlockCount,
            this`blockSize, this`occupied, this`free, this`issued
    {
      State().Valid()
    }

    /** `Texture::new`: one sentinel block, no rows, every list empty. */
    constructor (baseEpoch: nat, debugFlags: bool)
      ensures State() == Initial(baseEpoch) && Valid()
      ensures reachedReclaimThreshold == None && debugCommands == [] && this.debugFlags == debugFlags
    {
      height := GPU_CACHE_INITIAL_HEIGHT;
      blocks := [INVALID_BLOCK];
      rows := [];
      this.baseEpoch := baseEpoch;
      maxEpoch := baseEpoch;
      freeLists := seq(NUM_BUCKETS, _ => None);
      occupiedListHead := None;
      pendingBlocks := [];
      updates := [];
      allocatedBlockCount := 0;
      reachedReclaimThreshold := None;
      debugCommands := [];
      this.debugFlags := debugFlags;
      blockSize := [0];
      occupied := [];
      free := seq(NUM_BUCKETS, _ => []);
      issued := {};
      new;
      InitialValid(baseEpoch);
    }

    /**
     * The part of `push_data` that runs when free list `k` is empty: grow
     * the height when every row is in use, add a row of class
     * `SizeClasses()[k]`, create its blocks and make the last one the head
     * of list `k`.
     */
    method CarveRow(k: nat, frameId: nat)
      requires |blocks| >= 1 && k < |freeLists| && k < |free| && k < NUM_BUCKETS
      modifies this`height, this`rows, this`blocks, this`blockSize, this`freeLists, this`free
      ensures State() == Carve(old(State()), k, frameId)
    {
      ghost var t := State();
      var allocSize := SizeClasses()[k];
      if |rows| == height {
        height := height + NEW_ROWS_PER_RESIZE;
      }
      var itemsPerRow := ItemsPerRow(allocSize);
      var rowIndex := |rows|;
      rows := rows + [Row(allocSize)];
      ghost var start: BlockIndex := |blocks|;
      var prevBlockIndex := CreateBlocks(rowIndex, allocSize, itemsPerRow, frameId);
      blockSize := blockSize + seq(itemsPerRow, _ => allocSize);
      freeLists := freeLists[k := prevBlockIndex];
      free := free[k := Countdown(start, itemsPerRow)];
      CarveOf(t, k, frameId, State());
    }

    /**
     * The loop of `push_data` that creates one block per item of a new row
     * `rowIndex`: item `i` sits at column `i * allocSize`, starts at the
     * base epoch and links to the block created before it. The last block
     * created is returned.
     */
    method CreateBlocks(rowIndex: nat, allocSize: nat, itemsPerRow: nat, frameId: nat)
      returns (prevBlockIndex: Option<BlockIndex>)
      requires |blocks| >= 1 && itemsPerRow >= 1
      modifies this`blocks
      ensures blocks == old(blocks) + CarvedBlocks(old(|blocks|), rowIndex, allocSize, itemsPerRow, baseEpoch, frameId)
      ensures prevBlockIndex == Some((old(|blocks|) + itemsPerRow - 1) as BlockIndex)
    {
      ghost var start: BlockIndex := |blocks|;
      prevBlockIndex := None;
      for i := 0 to itemsPerRow
        invariant |blocks| == start + i && blocks[..start] == old(blocks)
        invariant forall j :: 0 <= j < i ==>
          blocks[start + j] == Block(GpuCacheAddress(j * allocSize, rowIndex), baseEpoch,
                                     if j == 0 then None else Some(start + j - 1), frameId)
        invariant prevBlockIndex == if i == 0 then None else Some(start + i - 1)
      {
        var address := GpuCacheAddress(i * allocSize, rowIndex);
        var blockIndex: BlockIndex := |blocks|;
        blocks := blocks + [Block(address, baseEpoch, prevBlockIndex, frameId)];
        prevBlockIndex := Some(blockIndex);
      }
      ghost var carved := CarvedBlocks(start, rowIndex, allocSize, itemsPerRow, baseEpoch, frameId);
      assert blocks == old(blocks) + carved by {
        forall j | 0 <= j < |blocks| ensures blocks[j] == (old(blocks) + carved)[j] {
          if j >= start {
            assert blocks[start + (j - start)] == carved[j - start];
          } else {
            assert blocks[..start][j] == blocks[j];
          }
        }
      }
    }

    /**
     * The rest of `push_data`: pop the head of free list `k`, push it on
     * the occupied list, stamp it and count its size class as allocated.
     */
    method TakeFreeBlock(k: nat, frameId: nat) returns (x: BlockIndex)
      requires k < |freeLists| && k < |free| && k < NUM_BUCKETS
      requires free[k] != [] && freeLists[k] == Some(free[k][0]) && free[k][0] < |blocks|
      modifies this`blocks, this`freeLists, this`occupiedListHead, this`allocatedBlockCount, this`occupied, this`free
      ensures x == old(free[k][0]) && x < |blocks| && blocks[x].lastAccessTime == frameId
      ensures State() == Take(old(State()), k, frameId)
    {
      ghost var t := State();
      x := freeLists[k].value;
      var block := blocks[x];
      freeLists := freeLists[k := block.next];
      blocks := blocks[x := block.(next := occupiedListHead, lastAccessTime := frameId)];
      occupiedListHead := Some(x);
      allocatedBlockCount := allocatedBlockCount + SizeClasses()[k];
      occupied := [x] + occupied;
      free := free[k := free[k][1..]];
      TakeOf(t, k, frameId, State());
    }

    /**
     * The arena side of `push_data` for free list `k`: carve a row when the
     * list is empty, then take its head, which is returned.
     */
    method AllocateBlock(k: nat, frameId: nat) returns (x: BlockIndex)
      requires State().ArenaShape() && State().ListsLinked() && k < NUM_BUCKETS
      modifies this`height, this`rows, this`blocks, this`blockSize, this`freeLists, this`free,
               this`occupiedListHead, this`allocatedBlockCount, this`occupied
      ensures State() == Allocate(old(State()), k, frameId)
      ensures State().occupiedListHead == Some(x) && x < |blocks| && blocks[x].lastAccessTime == frameId
    {
      if freeLists[k].None? {
        ghost var t0 := State();
        CarveRow(k, frameId);
        CarveLinked(t0, k, frameId);
      }
      assert IsList(blocks, freeLists[k], free[k]);
      x := TakeFreeBlock(k, frameId);
    }

    /**
     * `push_data` once the request is bucketed into free list `k`: take a
     * block (carving a row if needed), queue its copy command when
     * `pendingBlockIndex` is given and record the location handed out.
     */
    method PushToList(k: nat, pendingBlockIndex: Option<nat>, blockCount: nat, frameId: nat)
      returns (location: CacheLocation, address: GpuCacheAddress)
      requires State().ArenaShape() && State().ListsLinked() && k < NUM_BUCKETS
      modifies this`height, this`rows, this`blocks, this`blockSize, this`freeLists, this`free,
               this`occupiedListHead, this`allocatedBlockCount, this`occupied, this`updates, this`issued
      ensures location == AllocatedAt(old(State()), k, frameId)
      ensures State() == Push(old(State()), k, frameId, pendingBlockIndex, blockCount)
      ensures Matches(blocks, location) && blocks[location.blockIndex].lastAccessTime == frameId
      ensures address == blocks[location.blockIndex].address
      ensures updates == old(updates) + (if pendingBlockIndex.Some? then [Copy(pendingBlockIndex.value, blockCount, address)] else [])
    {
      ghost var t0 := State();
      var freeBlockIndex := AllocateBlock(k, frameId);
      var block := blocks[freeBlockIndex];
      location := CacheLocation(freeBlockIndex, block.epoch);
      address := block.address;
      if pendingBlockIndex.Some? {
        updates := updates + [Copy(pendingBlockIndex.value, blockCount, block.address)];
      }
      issued := issued + {location};
    }

    /**
     * `push_data`: allocate a block of the size class that fits
     * `blockCount` blocks, carving a new row when its free list is empty,
     * and return where it lives. A copy command from the pending buffer is
     * queued only when `pendingBlockIndex` is given; the debug log records
     * the allocation when the debug display is on. Zero blocks, or more
     * than a row holds, is an error and changes nothing.
     */
    method PushData(pendingBlockIndex: Option<nat>, blockCount: nat, frameId: nat)
      returns (r: Result<CacheLocation, BucketError>)
      requires Valid()
      requires pendingBlockIndex.Some? ==> pendingBlockIndex.value + blockCount <= |pendingBlocks|
      modifies this`height, this`rows, this`blocks, this`blockSize, this`freeLists, this`free,
               this`occupiedListHead, this`allocatedBlockCount, this`occupied, this`updates, this`issued,
               this`debugCommands
      ensures Valid()
      ensures BucketFor(blockCount).Err? ==>
        r == Err(BucketFor(blockCount).error) && State() == old(State()) && debugCommands == old(debugCommands)
      ensures BucketFor(blockCount).Ok? ==>
        var k := BucketFor(blockCount).value;
        var loc := AllocatedAt(old(State()), k, frameId);
        && r == Ok(loc)
        && State() == Push(old(State()), k, frameId, pendingBlockIndex, blockCount)
        && debugCommands == old(debugCommands) + (if debugFlags then [Alloc(blocks[loc.blockIndex].address, blockCount)] else [])
      ensures r.Ok? ==>
        && Matches(blocks, r.value) && blocks[r.value.blockIndex].lastAccessTime == frameId
        && updates == old(updates)
             + (if pendingBlockIndex.Some? then [Copy(pendingBlockIndex.value, blockCount, blocks[r.value.blockIndex].address)] else [])
    {
      var bucket := BucketFor(blockCount);
      if bucket.Err? {
        return Err(bucket.error);
      }
      var k := bucket.value;
      PushValid(State(), k, frameId, pendingBlockIndex, blockCount);
      var location, address := PushToList(k, pendingBlockIndex, blockCount, frameId);
      if debugFlags {
        debugCommands := debugCommands + [Alloc(address, blockCount)];
      }
      r := Ok(location);
    }

    /** `advance_epoch` on block `x`, as `invalidate` applies it. */
    method AdvanceBlockEpoch(x: BlockIndex)
      requires x < |blocks|
      modifies this`blocks, this`maxEpoch
      ensures State() == BumpEpoch(old(State()), x)
    {
      var bumped := AdvanceEpoch(blocks[x], maxEpoch);
      blocks := blocks[x := bumped.0];
      maxEpoch := bumped.1;
    }

    /** Stamp block `x` as used in frame `frameId`, as a cache hit does. */
    method TouchBlock(x: BlockIndex, frameId: nat)
      requires x < |blocks|
      modifies this`blocks
      ensures State() == Touch(old(State()), x, frameId)
    {
      blocks := blocks[x := blocks[x].(lastAccessTime := frameId)];
    }

    /** Append `data` to the blocks waiting for upload. */
    method AppendPending(data: seq<GpuBlockData>)
      modifies this`pendingBlocks
      ensures State() == old(State()).(pendingBlocks := old(pendingBlocks) + data)
    {
      pendingBlocks := pendingBlocks + data;
    }

    /**
     * Hand over the debug log, the copy commands and the pending blocks,
     * leaving all three empty.
     */
    method TakeUpdates() returns (commands: seq<GpuCacheDebugCmd>, copies: seq<GpuCacheUpdate>, data: seq<GpuBlockData>)
      modifies this`debugCommands, this`updates, this`pendingBlocks
      ensures commands == old(debugCommands) && copies == old(updates) && data == old(pendingBlocks)
      ensures State() == old(State()).(pendingBlocks := [], updates := []) && debugCommands == []
    {
      commands, copies, data := debugCommands, updates, pendingBlocks;
      debugCommands, updates, pendingBlocks := [], [], [];
    }

    /**
     * `utilization`: the share of the blocks of the carved rows that is
     * allocated. With no rows the ratio is 0/0, which the source only
     * guards by a debug assertion; it is modelled as `None`.
     */
    function Utilization(): (r: Option<real>)
      reads this`rows, this`allocatedBlockCount
      ensures r.None? <==> |rows| == 0
      ensures r.Some? ==> r.value * (|rows| * MAX_VERTEX_TEXTURE_WIDTH) as real == allocatedBlockCount as real
    {
      var totalBlocks := |rows| * MAX_VERTEX_TEXTURE_WIDTH;
      if totalBlocks == 0 then None else Some(allocatedBlockCount as real / totalBlocks as real)
    }

    /**
     * The reclaim test of `end_frame`: more rows than the texture starts
     * with, and utilization below RECLAIM_THRESHOLD.
     */
    function ReachedThreshold(): (b: bool)
      reads this`rows, this`allocatedBlockCount
      ensures b <==> LowUtilization(|rows|, allocatedBlockCount)
    {
      if |rows| > GPU_CACHE_INITIAL_HEIGHT then
        RatioBelowThreshold(allocatedBlockCount, |rows| * MAX_VERTEX_TEXTURE_WIDTH, Utilization().value);
        Utilization().value < RECLAIM_THRESHOLD
      else false
    }

    /**
     * The ratio lies between 0 and 1 whenever the allocated blocks fit in
     * the rows, as they do in a valid texture (AllocatedWithinRows).
     */
    lemma UtilizationBounded()
      requires 0 < |rows| && allocatedBlockCount <= |rows| * MAX_VERTEX_TEXTURE_WIDTH
      ensures 0.0 <= Utilization().value <= 1.0
    {
      RatioBounded(allocatedBlockCount as real, (|rows| * MAX_VERTEX_TEXTURE_WIDTH) as real, Utilization().value);
    }

    /**
     * The first half of an eviction in `evict_old_blocks`: block `x` moves
     * to a new epoch (raising the watermark) and goes on the front of the
     * free list of its row's class; that class leaves the allocated count.
     * The link it had on the occupied list is returned.
     */
    method FreeBlock(x: BlockIndex) returns (nextBlock: Option<BlockIndex>, k: nat)
      requires x < |blocks| && blocks[x].address.v < |rows|
      requires rows[blocks[x].address.v].blockCountPerItem in SizeClasses()
      requires rows[blocks[x].address.v].blockCountPerItem <= allocatedBlockCount
      requires |freeLists| == NUM_BUCKETS && |free| == NUM_BUCKETS
      modifies this`blocks, this`maxEpoch, this`freeLists, this`allocatedBlockCount, this`free
      ensures nextBlock == old(blocks[x].next)
      ensures k == ClassIndex(old(rows[blocks[x].address.v].blockCountPerItem)) && k < |free|
      ensures blocks == old(blocks[x := AdvanceEpoch(blocks[x], maxEpoch).0.(next := freeLists[k])])
      ensures maxEpoch == old(AdvanceEpoch(blocks[x], maxEpoch).1)
      ensures freeLists == old(freeLists[k := Some(x)])
      ensures allocatedBlockCount == old(allocatedBlockCount - rows[blocks[x].address.v].blockCountPerItem)
      ensures free == old(free[k := [x] + free[k]])
    {
      var block := blocks[x];
      nextBlock := block.next;
      // The row's class picks the free list, as `BucketFor` would (ClassIndexIsBucket).
      var row := rows[block.address.v];
      k := ClassIndex(row.blockCountPerItem);
      var bumped := AdvanceEpoch(block, maxEpoch);
      blocks := blocks[x := bumped.0.(next := freeLists[k])];
      maxEpoch := bumped.1;
      freeLists := freeLists[k := Some(x)];
      allocatedBlockCount := allocatedBlockCount - row.blockCountPerItem;
      free := free[k := [x] + free[k]];
    }

    /**
     * The second half: the block at position `pos` of the occupied list
     * is unlinked by pointing its predecessor `prev` (or the head) at
     * `nextBlock`.
     */
    method UnlinkOccupied(ghost pos: nat, prev: Option<BlockIndex>, nextBlock: Option<BlockIndex>)
      requires pos < |occupied| && (prev.Some? ==> prev.value < |blocks|)
      modifies this`blocks, this`occupiedListHead, this`occupied
      ensures blocks == if prev.Some? then old(blocks)[prev.value := old(blocks)[prev.value].(next := nextBlock)] else old(blocks)
      ensures occupiedListHead == if prev.Some? then old(occupiedListHead) else nextBlock
      ensures occupied == old(occupied[..pos] + occupied[pos + 1..])
    {
      if prev.Some? {
        blocks := blocks[prev.value := blocks[prev.value].(next := nextBlock)];
      } else {
        occupiedListHead := nextBlock;
      }
      occupied := occupied[..pos] + occupied[pos + 1..];
    }

    /**
     * One eviction of `evict_old_blocks`: block `x`, at position `pos` of
     * the occupied list and preceded there by `prev`, is freed and
     * unlinked, which is `Unlink` (and so `Release`) on the state; the
     * debug log records it when the debug display is on.
     */
    method ReleaseAt(ghost pos: nat, x: BlockIndex, prev: Option<BlockIndex>) returns (nextBlock: Option<BlockIndex>)
      requires CanUnlink(State(), pos, x, prev)
      modifies this`blocks, this`maxEpoch, this`freeLists, this`occupiedListHead, this`allocatedBlockCount,
               this`occupied, this`free, this`debugCommands
      ensures nextBlock == old(blocks[x].next)
      ensures State() == Unlink(old(State()), pos, x, prev)
      ensures debugCommands == old(debugCommands) + (if debugFlags then [Free(old(blocks[x].address))] else [])
    {
      ghost var t := State();
      var address := blocks[x].address;
      var k;
      nextBlock, k := FreeBlock(x);
      if debugFlags {
        debugCommands := debugCommands + [Free(address)];
      }
      UnlinkOccupied(pos, prev, nextBlock);
      UnlinkOf(t, pos, x, prev, State());
    }

    /**
     * The body of the loop of `evict_old_blocks`, visiting block `index`
     * at position `pos` of the occupied list `t`, preceded there by
     * `prevBlock`: a block not used in the last FRAMES_BEFORE_EVICTION
     * frames is released, any other is kept. The link the block had is
     * returned.
     */
    method EvictVisit(ghost t: TextureState, ghost pos: nat, frameId: nat, index: BlockIndex, prevBlock: Option<BlockIndex>)
      returns (nextBlock: Option<BlockIndex>, evicted: bool)
      requires State() == t && index < |t.blocks|
      requires IsStale(t.blocks[index], frameId) ==> CanUnlink(t, pos, index, prevBlock)
      modifies this`blocks, this`maxEpoch, this`freeLists, this`occupiedListHead, this`allocatedBlockCount,
               this`occupied, this`free, this`debugCommands
      ensures evicted == IsStale(t.blocks[index], frameId)
      ensures nextBlock == t.blocks[index].next
      ensures State() == if evicted then Unlink(t, pos, index, prevBlock) else t
      ensures debugCommands == old(debugCommands) + (if evicted && debugFlags then [Free(t.blocks[index].address)] else [])
    {
      var block := blocks[index];
      nextBlock := block.next;
      evicted := block.lastAccessTime + FRAMES_BEFORE_EVICTION < frameId;
      if evicted {
        nextBlock := ReleaseAt(pos, index, prevBlock);
      }
    }

    /**
     * Step `i` of `evict_old_blocks` over the occupied list of `t0`, the
     * state the pass started from, with `prevBlock` the last block kept so
     * far and the `Free` commands of the blocks evicted so far following
     * `log0` in the debug log: the state moves from one prefix of the pass
     * to the next.
     */
    method EvictStep(ghost t0: TextureState, ghost i: nat, ghost log0: seq<GpuCacheDebugCmd>,
                     frameId: nat, index: BlockIndex, prevBlock: Option<BlockIndex>)
      returns (nextBlock: Option<BlockIndex>, lastKept: Option<BlockIndex>)
      requires i < |t0.occupied| && index == t0.occupied[i] && StepReady(t0, frameId, i)
      requires State() == EvictPrefix(t0, frameId, i)
      requires prevBlock == LastOf(Survivors(t0.blocks, t0.occupied[..i], frameId))
      requires debugCommands == log0 + (if debugFlags then FreeCommands(t0.blocks, Evicted(t0.blocks, t0.occupied[..i], frameId)) else [])
      modifies this`blocks, this`maxEpoch, this`freeLists, this`occupiedListHead, this`allocatedBlockCount,
               this`occupied, this`free, this`debugCommands
      ensures State() == EvictPrefix(t0, frameId, i + 1)
      ensures nextBlock == if i + 1 < |t0.occupied| then Some(t0.occupied[i + 1]) else None
      ensures lastKept == LastOf(Survivors(t0.blocks, t0.occupied[..i + 1], frameId))
      ensures debugCommands == log0 + (if debugFlags then FreeCommands(t0.blocks, Evicted(t0.blocks, t0.occupied[..i + 1], frameId)) else [])
    {
      ghost var t := State();
      var evicted;
      nextBlock, evicted := EvictVisit(t, |Survivors(t0.blocks, t0.occupied[..i], frameId)|, frameId, index, prevBlock);
      lastKept := if evicted then prevBlock else Some(index);
      LogStep(log0, FreeCommands(t0.blocks, Evicted(t0.blocks, t0.occupied[..i], frameId)), Free(t0.blocks[index].address),
              debugFlags, evicted);
    }

    /**
     * `evict_old_blocks`: one walk along the occupied list, keeping a
     * cursor on the last block kept, that releases every block not used
     * in the last FRAMES_BEFORE_EVICTION frames. The new state is the
     * whole pass `Evict` of the old one (see TextureEviction for what it
     * means); the debug log gets a `Free` for each evicted block, in the
     * order met, when the debug display is on.
     */
    method EvictOldBlocks(frameId: nat)
      requires Valid()
      modifies this`blocks, this`maxEpoch, this`freeLists, this`occupiedListHead, this`allocatedBlockCount,
               this`occupied, this`free, this`debugCommands
      ensures State() == Evict(old(State()), frameId)
      ensures Valid()
      ensures debugCommands == old(debugCommands)
        + (if debugFlags then FreeCommands(old(blocks), Evicted(old(blocks), old(occupied), frameId)) else [])
    {
      ghost var t0 := State();
      ghost var i: nat := 0;
      var currentBlock := occupiedListHead;
      var prevBlock: Option<BlockIndex> := None;
      PrefixEmpty(t0, frameId);
      while currentBlock.Some?
        invariant i <= |t0.occupied|
        invariant State() == EvictPrefix(t0, frameId, i)
        invariant currentBlock == if i < |t0.occupied| then Some(t0.occupied[i]) else None
        invariant prevBlock == LastOf(Survivors(t0.blocks, t0.occupied[..i], frameId))
        invariant debugCommands == old(debugCommands)
          + (if debugFlags then FreeCommands(t0.blocks, Evicted(t0.blocks, t0.occupied[..i], frameId)) else [])
        decreases |t0.occupied| - i
      {
        EvictStepFacts(t0, frameId, i);
        currentBlock, prevBlock := EvictStep(t0, i, old(debugCommands), frameId, currentBlock.value, prevBlock);
        i := i + 1;
      }
      Whole(t0.occupied, []);
      EvictValid(t0, frameId);
    }
  }
}
