/**
 * The state of the cache texture as a value, its invariant, and each step
 * the allocator takes on it (carve a row, pop a free block, release an
 * occupied one, bump an epoch, touch a block, record a hand-out) as a
 * function of the state before. The class in cache_texture.dfy is proved
 * to perform exactly these steps; the lemmas here prove that each step
 * keeps the invariant.
 */
module TextureModel {
  import opened Wrappers
  import opened FreeBlockLists
  import opened BlockArena

  /** Rows the texture starts with. */
  const GPU_CACHE_INITIAL_HEIGHT: nat := 20

  /** Rows added each time every row has been carved. */
  const NEW_ROWS_PER_RESIZE: nat := 10

  /**
   * The fields of the texture, plus four ghost views: the size class of
   * every block, the occupied list and the twelve free lists as sequences
   * of indices, and every location handed out so far.
   */
  datatype TextureState = TextureState(
    height: nat,
    blocks: seq<Block>,
    rows: seq<Row>,
    baseEpoch: nat,
    maxEpoch: nat,
    freeLists: seq<Option<BlockIndex>>,
    occupiedListHead: Option<BlockIndex>,
    pendingBlocks: seq<GpuBlockData>,
    updates: seq<GpuCacheUpdate>,
    allocatedBlockCount: nat,
    blockSize: seq<nat>,
    occupied: seq<BlockIndex>,
    free: seq<seq<BlockIndex>>,
    issued: set<CacheLocation>)
  {
    /** Rows, blocks and their size classes agree; index 0 holds the sentinel. */
    ghost predicate ArenaShape()
    {
      && |blocks| >= 1 && blocks[0] == INVALID_BLOCK
      && |blockSize| == |blocks|
      && GPU_CACHE_INITIAL_HEIGHT <= height && |rows| <= height
      && (forall v :: 0 <= v < |rows| ==> rows[v].blockCountPerItem in SizeClasses())
      && (forall i :: 1 <= i < |blocks| ==>
            blocks[i].address.v < |rows| && blockSize[i] == rows[blocks[i].address.v].blockCountPerItem)
    }

    /** The heads and `next` links form the thirteen lists. */
    ghost predicate ListsLinked()
    {
      && |freeLists| == NUM_BUCKETS && |free| == NUM_BUCKETS
      && IsList(blocks, occupiedListHead, occupied)
      && (forall k :: 0 <= k < NUM_BUCKETS ==> IsList(blocks, freeLists[k], free[k]))
    }

    /**
     * Every block but the sentinel is on exactly one list: the occupied
     * list or the free list of its own size class.
     */
    ghost predicate ListsPartition()
      requires ArenaShape() && ListsLinked()
    {
      && Distinct(occupied)
      && (forall k :: 0 <= k < NUM_BUCKETS ==> Distinct(free[k]))
      && (forall k, x {:trigger x in free[k]} :: 0 <= k < NUM_BUCKETS && x in free[k] ==>
            x < |blocks| && x !in occupied && blockSize[x] == SizeClasses()[k])
      && (forall i: BlockIndex :: i < |blocks| ==> i in occupied || i in free[ClassIndex(blockSize[i])])
    }

    /**
     * The allocated count is the size of the occupied blocks, and together
     * with the free blocks it makes up what the carved rows provide.
     */
    ghost predicate Accounting()
      requires ArenaShape()
    {
      && allocatedBlockCount == SumSizes(blockSize, occupied)
      && allocatedBlockCount + SumFree(blockSize, free) == RowsCapacity(rows)
    }

    /** Every epoch lies between the base epoch and the watermark. */
    ghost predicate EpochsBounded()
    {
      && baseEpoch <= maxEpoch
      && (forall i :: 1 <= i < |blocks| ==> baseEpoch <= blocks[i].epoch <= maxEpoch)
    }

    /** Each copy command reads blocks that are in the pending buffer. */
    ghost predicate UpdatesInPending()
    {
      forall u :: u in updates ==> u.blockIndex + u.blockCount <= |pendingBlocks|
    }

    /**
     * A handed-out location never runs ahead of its block's epoch, and while
     * it still matches, its block is occupied.
     */
    ghost predicate IssuedSound()
    {
      forall loc :: loc in issued ==>
        && loc.blockIndex < |blocks|
        && loc.epoch <= blocks[loc.blockIndex].epoch
        && (loc.epoch == blocks[loc.blockIndex].epoch ==> loc.blockIndex in occupied)
    }

    ghost predicate Valid()
    {
      && ArenaShape()
      && ListsLinked()
      && ListsPartition()
      && Accounting()
      && EpochsBounded()
      && UpdatesInPending()
      && IssuedSound()
    }
  }

  // ---------------------------------------------------------------------------
  // The steps

  /** `Texture::new`: one sentinel block, no rows, every list empty. */
  ghost function Initial(baseEpoch: nat): TextureState
  {
    TextureState(GPU_CACHE_INITIAL_HEIGHT, [INVALID_BLOCK], [], baseEpoch, baseEpoch,
                 seq(NUM_BUCKETS, _ => None), None, [], [], 0,
                 [0], [], seq(NUM_BUCKETS, _ => []), {})
  }

  /**
   * The `n` blocks of a freshly carved row `rowIndex` of class `c`, stored
   * from index `start` on: item `j` sits at column `j * c` and links to
   * the item carved before it.
   */
  ghost function CarvedBlocks(start: BlockIndex, rowIndex: nat, c: nat, n: nat, epoch: nat, frameId: nat): (s: seq<Block>)
    ensures |s| == n
    ensures forall j :: 0 <= j < n ==>
      s[j] == Block(GpuCacheAddress(j * c, rowIndex), epoch, if j == 0 then None else Some(start + j - 1), frameId)
  {
    seq(n, j requires 0 <= j < n =>
      Block(GpuCacheAddress(j * c, rowIndex), epoch, if j == 0 then None else Some((start + j - 1) as BlockIndex), frameId))
  }

  /**
   * The row-carving half of `push_data`, taken when free list `k` is
   * empty: grow the height if every row is in use, add a row of class
   * `SizeClasses()[k]`, and make its items, last one first, free list `k`.
   */
  ghost function Carve(t: TextureState, k: nat, frameId: nat): TextureState
    requires |t.blocks| >= 1 && k < |t.freeLists| && k < |t.free| && k < NUM_BUCKETS
  {
    var c := SizeClasses()[k];
    var n := ItemsPerRow(c);
    var start: BlockIndex := |t.blocks|;
    t.(height := if |t.rows| == t.height then t.height + NEW_ROWS_PER_RESIZE else t.height,
       rows := t.rows + [Row(c)],
       blocks := t.blocks + CarvedBlocks(start, |t.rows|, c, n, t.baseEpoch, frameId),
       blockSize := t.blockSize + seq(n, _ => c),
       freeLists := t.freeLists[k := Some((start + n - 1) as BlockIndex)],
       free := t.free[k := Countdown(start, n)])
  }

  /**
   * The allocation half of `push_data`: the head of free list `k` moves to
   * the head of the occupied list and is stamped with `frameId`.
   */
  ghost function Take(t: TextureState, k: nat, frameId: nat): TextureState
    requires k < |t.freeLists| && k < |t.free| && k < NUM_BUCKETS
    requires t.free[k] != [] && t.freeLists[k] == Some(t.free[k][0]) && t.free[k][0] < |t.blocks|
  {
    var x := t.free[k][0];
    t.(blocks := t.blocks[x := t.blocks[x].(next := t.occupiedListHead, lastAccessTime := frameId)],
       freeLists := t.freeLists[k := t.blocks[x].next],
       occupiedListHead := Some(x),
       allocatedBlockCount := t.allocatedBlockCount + SizeClasses()[k],
       occupied := [x] + t.occupied,
       free := t.free[k := t.free[k][1..]])
  }

  /** A state whose fields are those `Carve` computes is `Carve`'s result. */
  lemma CarveOf(t: TextureState, k: nat, frameId: nat, r: TextureState)
    requires |t.blocks| >= 1 && k < |t.freeLists| && k < |t.free| && k < NUM_BUCKETS
    requires var c := SizeClasses()[k];
      var n := ItemsPerRow(c);
      && r.height == (if |t.rows| == t.height then t.height + NEW_ROWS_PER_RESIZE else t.height)
      && r.rows == t.rows + [Row(c)]
      && r.blocks == t.blocks + CarvedBlocks(|t.blocks|, |t.rows|, c, n, t.baseEpoch, frameId)
      && r.blockSize == t.blockSize + seq(n, _ => c)
      && r.freeLists == t.freeLists[k := Some((|t.blocks| + n - 1) as BlockIndex)]
      && r.free == t.free[k := Countdown(|t.blocks|, n)]
    requires r.baseEpoch == t.baseEpoch && r.maxEpoch == t.maxEpoch && r.occupiedListHead == t.occupiedListHead
    requires r.pendingBlocks == t.pendingBlocks && r.updates == t.updates && r.allocatedBlockCount == t.allocatedBlockCount
    requires r.occupied == t.occupied && r.issued == t.issued
    ensures r == Carve(t, k, frameId)
  {
  }

  /** A state whose fields are those `Take` computes is `Take`'s result. */
  lemma TakeOf(t: TextureState, k: nat, frameId: nat, r: TextureState)
    requires k < |t.freeLists| && k < |t.free| && k < NUM_BUCKETS
    requires t.free[k] != [] && t.freeLists[k] == Some(t.free[k][0]) && t.free[k][0] < |t.blocks|
    requires var x := t.free[k][0];
      && r.blocks == t.blocks[x := t.blocks[x].(next := t.occupiedListHead, lastAccessTime := frameId)]
      && r.freeLists == t.freeLists[k := t.blocks[x].next]
      && r.occupiedListHead == Some(x)
      && r.allocatedBlockCount == t.allocatedBlockCount + SizeClasses()[k]
      && r.occupied == [x] + t.occupied
      && r.free == t.free[k := t.free[k][1..]]
    requires r.height == t.height && r.rows == t.rows && r.baseEpoch == t.baseEpoch && r.maxEpoch == t.maxEpoch
    requires r.pendingBlocks == t.pendingBlocks && r.updates == t.updates
    requires r.blockSize == t.blockSize && r.issued == t.issued
    ensures r == Take(t, k, frameId)
  {
  }

  /** The block at `pos` of the occupied list, its predecessor and its class's free list exist. */
  ghost predicate Releasable(t: TextureState, pos: nat)
  {
    && pos < |t.occupied| && t.occupied[pos] < |t.blocks| && |t.blockSize| == |t.blocks|
    && t.blockSize[t.occupied[pos]] in SizeClasses()
    && |t.freeLists| == NUM_BUCKETS && |t.free| == NUM_BUCKETS
    && (pos > 0 ==> t.occupied[pos - 1] < |t.blocks|)
  }

  /**
   * One eviction in `evict_old_blocks`: the occupied block at position
   * `pos` gets a new epoch, goes on the front of its class's free list and
   * is unlinked from the occupied list through its predecessor (or the
   * head); its size leaves the allocated count.
   */
  ghost function Release(t: TextureState, pos: nat): TextureState
    requires Releasable(t, pos)
  {
    var x := t.occupied[pos];
    var k := ClassIndex(t.blockSize[x]);
    var bumped := AdvanceEpoch(t.blocks[x], t.maxEpoch);
    var next := t.blocks[x].next;
    var released := t.blocks[x := bumped.0.(next := t.freeLists[k])];
    t.(blocks := if pos == 0 then released
                 else released[t.occupied[pos - 1] := released[t.occupied[pos - 1]].(next := next)],
       maxEpoch := bumped.1,
       freeLists := t.freeLists[k := Some(x)],
       occupiedListHead := if pos == 0 then next else t.occupiedListHead,
       allocatedBlockCount := if t.blockSize[x] <= t.allocatedBlockCount then t.allocatedBlockCount - t.blockSize[x] else 0,
       occupied := t.occupied[..pos] + t.occupied[pos + 1..],
       free := t.free[k := [x] + t.free[k]])
  }

  /**
   * What `Unlink` reads exists: block `x` and its row, whose class is
   * still counted as allocated, the predecessor `prev`, and the lists.
   */
  ghost predicate CanUnlink(t: TextureState, pos: nat, x: BlockIndex, prev: Option<BlockIndex>)
  {
    && x < |t.blocks| && t.blocks[x].address.v < |t.rows|
    && t.rows[t.blocks[x].address.v].blockCountPerItem in SizeClasses()
    && t.rows[t.blocks[x].address.v].blockCountPerItem <= t.allocatedBlockCount
    && |t.freeLists| == NUM_BUCKETS && |t.free| == NUM_BUCKETS
    && pos < |t.occupied| && (prev.Some? ==> prev.value < |t.blocks|)
  }

  /**
   * The eviction step as `evict_old_blocks` performs it: block `x`, at
   * position `pos` of the occupied list and preceded there by `prev`, goes
   * on the free list of its row's class and is unlinked through `prev` (or
   * the head). `ReleaseUnlinks` shows it is `Release`.
   */
  ghost function Unlink(t: TextureState, pos: nat, x: BlockIndex, prev: Option<BlockIndex>): TextureState
    requires CanUnlink(t, pos, x, prev)
  {
    var c := t.rows[t.blocks[x].address.v].blockCountPerItem;
    var k := ClassIndex(c);
    var bumped := AdvanceEpoch(t.blocks[x], t.maxEpoch);
    var next := t.blocks[x].next;
    var released := t.blocks[x := bumped.0.(next := t.freeLists[k])];
    t.(blocks := if prev.Some? then released[prev.value := released[prev.value].(next := next)] else released,
       maxEpoch := bumped.1,
       freeLists := t.freeLists[k := Some(x)],
       occupiedListHead := if prev.Some? then t.occupiedListHead else next,
       allocatedBlockCount := t.allocatedBlockCount - c,
       occupied := t.occupied[..pos] + t.occupied[pos + 1..],
       free := t.free[k := [x] + t.free[k]])
  }

  /** A state whose fields are those `Unlink` computes is `Unlink`'s result. */
  lemma UnlinkOf(t: TextureState, pos: nat, x: BlockIndex, prev: Option<BlockIndex>, r: TextureState)
    requires CanUnlink(t, pos, x, prev)
    requires var k := ClassIndex(t.rows[t.blocks[x].address.v].blockCountPerItem);
      var released := t.blocks[x := AdvanceEpoch(t.blocks[x], t.maxEpoch).0.(next := t.freeLists[k])];
      && r.blocks == (if prev.Some? then released[prev.value := released[prev.value].(next := t.blocks[x].next)] else released)
      && r.maxEpoch == AdvanceEpoch(t.blocks[x], t.maxEpoch).1
      && r.freeLists == t.freeLists[k := Some(x)]
      && r.occupiedListHead == (if prev.Some? then t.occupiedListHead else t.blocks[x].next)
      && r.allocatedBlockCount == t.allocatedBlockCount - t.rows[t.blocks[x].address.v].blockCountPerItem
      && r.occupied == t.occupied[..pos] + t.occupied[pos + 1..]
      && r.free == t.free[k := [x] + t.free[k]]
    requires r.height == t.height && r.rows == t.rows && r.baseEpoch == t.baseEpoch
    requires r.pendingBlocks == t.pendingBlocks && r.updates == t.updates
    requires r.blockSize == t.blockSize && r.issued == t.issued
    ensures r == Unlink(t, pos, x, prev)
  {
  }

  /** `advance_epoch` applied to block `x` inside the texture. */
  ghost function BumpEpoch(t: TextureState, x: BlockIndex): TextureState
    requires x < |t.blocks|
  {
    var bumped := AdvanceEpoch(t.blocks[x], t.maxEpoch);
    t.(blocks := t.blocks[x := bumped.0], maxEpoch := bumped.1)
  }

  /** Stamp block `x` as used in frame `frameId`. */
  ghost function Touch(t: TextureState, x: BlockIndex, frameId: nat): TextureState
    requires x < |t.blocks|
  {
    t.(blocks := t.blocks[x := t.blocks[x].(lastAccessTime := frameId)])
  }

  /** Record that `loc` was handed out, together with its copy commands. */
  ghost function Record(t: TextureState, loc: CacheLocation, copies: seq<GpuCacheUpdate>): TextureState
  {
    t.(updates := t.updates + copies, issued := t.issued + {loc})
  }

  // ---------------------------------------------------------------------------
  // Each step keeps the invariant

  lemma InitialValid(baseEpoch: nat)
    ensures Initial(baseEpoch).Valid()
    ensures Initial(baseEpoch).allocatedBlockCount == 0 && Initial(baseEpoch).occupied == []
  {
    var t := Initial(baseEpoch);
    SumFreeEmpty(t.blockSize, t.free);
  }
  lemma CarveShape(t: TextureState, k: nat, frameId: nat)
    requires t.ArenaShape() && t.ListsLinked() && k < NUM_BUCKETS
    ensures Carve(t, k, frameId).ArenaShape()
  {
    var t' := Carve(t, k, frameId);
    var start := |t.blocks|;
    forall i | 1 <= i < |t'.blocks|
      ensures t'.blocks[i].address.v < |t'.rows|
      ensures t'.blockSize[i] == t'.rows[t'.blocks[i].address.v].blockCountPerItem
    {
      if i < start {
        assert t'.blocks[i] == t.blocks[i] && t'.blockSize[i] == t.blockSize[i];
        assert t'.rows[t.blocks[i].address.v] == t.rows[t.blocks[i].address.v];
      }
    }
  }

  lemma CarveLinked(t: TextureState, k: nat, frameId: nat)
    requires t.ArenaShape() && t.ListsLinked() && k < NUM_BUCKETS && t.freeLists[k].None?
    ensures Carve(t, k, frameId).ListsLinked()
  {
    var t' := Carve(t, k, frameId);
    var start := |t.blocks|;
    var n := ItemsPerRow(SizeClasses()[k]);
    // The old lists only hold old blocks, which carving leaves alone.
    assert forall x :: 0 <= x < start ==> t'.blocks[x] == t.blocks[x];
    IsListFrame(t.blocks, t'.blocks, t.occupiedListHead, t.occupied);
    forall k' | 0 <= k' < NUM_BUCKETS
      ensures IsList(t'.blocks, t'.freeLists[k'], t'.free[k'])
    {
      if k' != k {
        assert IsList(t.blocks, t.freeLists[k'], t.free[k']);
        IsListFrame(t.blocks, t'.blocks, t.freeLists[k'], t.free[k']);
      } else {
        var s := Countdown(start, n);
        forall i | 0 <= i < n
          ensures s[i] < |t'.blocks|
          ensures t'.blocks[s[i]].next == if i + 1 < n then Some(s[i + 1]) else None
        {
          assert t'.blocks[s[i]] == t'.blocks[start + (n - 1 - i)];
        }
      }
    }
  }

  lemma CarveFreeMembers(t: TextureState, k: nat, frameId: nat)
    requires t.ArenaShape() && t.ListsLinked() && t.ListsPartition()
    requires k < NUM_BUCKETS && t.freeLists[k].None?
    ensures var t' := Carve(t, k, frameId);
      && (forall k' :: 0 <= k' < NUM_BUCKETS ==> Distinct(t'.free[k']))
      && (forall k', x {:trigger x in t'.free[k']} :: 0 <= k' < NUM_BUCKETS && x in t'.free[k'] ==>
            x < |t'.blocks| && x !in t'.occupied && t'.blockSize[x] == SizeClasses()[k'])
  {
    var t' := Carve(t, k, frameId);
    var start: BlockIndex := |t.blocks|;
    CountdownDistinct(start, ItemsPerRow(SizeClasses()[k]));
    IsListBounded(t.blocks, t.occupiedListHead, t.occupied);
    forall k', x | 0 <= k' < NUM_BUCKETS && x in t'.free[k']
      ensures x < |t'.blocks| && x !in t'.occupied && t'.blockSize[x] == SizeClasses()[k']
    {
      if k' != k {
        FreeNotOccupied(t, k', x);
        assert t'.blockSize[x] == t.blockSize[x];
      }
    }
  }

  lemma CarveCovers(t: TextureState, k: nat, frameId: nat)
    requires t.ArenaShape() && t.ListsLinked() && t.ListsPartition()
    requires k < NUM_BUCKETS && t.freeLists[k].None?
    ensures var t' := Carve(t, k, frameId);
      && t'.ArenaShape()
      && forall i: BlockIndex :: i < |t'.blocks| ==> i in t'.occupied || i in t'.free[ClassIndex(t'.blockSize[i])]
  {
    CarveShape(t, k, frameId);
    var t' := Carve(t, k, frameId);
    var start: BlockIndex := |t.blocks|;
    CountdownDistinct(start, ItemsPerRow(SizeClasses()[k]));
    ClassIndexOf(k);
    forall i: BlockIndex | i < |t'.blocks|
      ensures i in t'.occupied || i in t'.free[ClassIndex(t'.blockSize[i])]
    {
      if i < start {
        assert t'.blockSize[i] == t.blockSize[i];
      }
    }
  }

  lemma CarvePartition(t: TextureState, k: nat, frameId: nat)
    requires t.ArenaShape() && t.ListsLinked() && t.ListsPartition()
    requires k < NUM_BUCKETS && t.freeLists[k].None?
    ensures Carve(t, k, frameId).ArenaShape() && Carve(t, k, frameId).ListsLinked()
    ensures Carve(t, k, frameId).ListsPartition()
  {
    CarveLinked(t, k, frameId);
    CarveFreeMembers(t, k, frameId);
    CarveCovers(t, k, frameId);
  }

  lemma CarveAccounting(t: TextureState, k: nat, frameId: nat)
    requires t.ArenaShape() && t.ListsLinked() && t.Accounting()
    requires k < NUM_BUCKETS && t.freeLists[k].None?
    ensures Carve(t, k, frameId).ArenaShape()
    ensures Carve(t, k, frameId).Accounting()
  {
    CarveShape(t, k, frameId);
    var t' := Carve(t, k, frameId);
    var c := SizeClasses()[k];
    var start := |t.blocks|;
    var n := ItemsPerRow(c);
    var more := seq(n, _ => c);
    assert IsList(t.blocks, t.freeLists[k], t.free[k]);
    assert t.free[k] == [];
    forall x | x in t.occupied ensures x < |t.blockSize| {
      var i :| 0 <= i < |t.occupied| && t.occupied[i] == x;
    }
    forall k', x | 0 <= k' < |t.free| && x in t.free[k'] ensures x < |t.blockSize| {
      assert IsList(t.blocks, t.freeLists[k'], t.free[k']);
      var i :| 0 <= i < |t.free[k']| && t.free[k'][i] == x;
    }
    SumSizesExtend(t.blockSize, more, t.occupied);
    SumFreeExtend(t.blockSize, more, t.free);
    SumFreeUpdate(t'.blockSize, t.free, k, Countdown(start, n));
    SumSizesCountdown(t'.blockSize, start, n, c);
    assert t'.rows[..|t'.rows| - 1] == t.rows;
  }

  /** Carving a row keeps the invariant. */
  lemma CarveValid(t: TextureState, k: nat, frameId: nat)
    requires t.Valid() && k < NUM_BUCKETS && t.freeLists[k].None?
    ensures Carve(t, k, frameId).Valid()
  {
    CarvePartition(t, k, frameId);
    CarveAccounting(t, k, frameId);
    var t' := Carve(t, k, frameId);
    forall loc | loc in t'.issued
      ensures loc.blockIndex < |t'.blocks| && t'.blocks[loc.blockIndex] == t.blocks[loc.blockIndex]
    {
    }
  }
  /** A block on a free list is a real block that is not occupied. */
  lemma FreeNotOccupied(t: TextureState, k: nat, y: BlockIndex)
    requires t.ArenaShape() && t.ListsLinked() && t.ListsPartition()
    requires k < NUM_BUCKETS && y in t.free[k]
    ensures y < |t.blocks| && y !in t.occupied && t.blockSize[y] == SizeClasses()[k]
  {
  }

  /** A block sits on at most one free list: the one of its own class. */
  lemma OneFreeList(t: TextureState, k: nat, k': nat, x: BlockIndex)
    requires t.ArenaShape() && t.ListsLinked() && t.ListsPartition()
    requires k < NUM_BUCKETS && k' < NUM_BUCKETS && x in t.free[k] && x in t.free[k']
    ensures k == k'
  {
    SizeClassesIncreasing();
    assert SizeClasses()[k] == t.blockSize[x] == SizeClasses()[k'];
  }

  lemma TakeShape(t: TextureState, k: nat, frameId: nat)
    requires t.ArenaShape() && t.ListsLinked() && k < NUM_BUCKETS && t.freeLists[k].Some?
    ensures Take(t, k, frameId).ArenaShape()
    ensures forall i :: 0 <= i < |t.blocks| ==>
      Take(t, k, frameId).blocks[i].address == t.blocks[i].address && Take(t, k, frameId).blocks[i].epoch == t.blocks[i].epoch
  {
    var t' := Take(t, k, frameId);
    assert IsList(t.blocks, t.freeLists[k], t.free[k]);
    forall i | 1 <= i < |t'.blocks|
      ensures t'.blocks[i].address.v < |t'.rows|
      ensures t'.blockSize[i] == t'.rows[t'.blocks[i].address.v].blockCountPerItem
    {
      assert t'.blocks[i].address == t.blocks[i].address;
    }
  }

  lemma TakeLinked(t: TextureState, k: nat, frameId: nat)
    requires t.ArenaShape() && t.ListsLinked() && t.ListsPartition()
    requires k < NUM_BUCKETS && t.freeLists[k].Some?
    ensures Take(t, k, frameId).ListsLinked()
  {
    var t' := Take(t, k, frameId);
    var x := t.freeLists[k].value;
    assert IsList(t.blocks, t.freeLists[k], t.free[k]);
    assert x == t.free[k][0] && x in t.free[k];
    // Only block x changes, and x is on free list k alone.
    IsListPush(t.blocks, t'.blocks, t.occupiedListHead, t.occupied, x);
    forall y | y in t.free[k][1..] ensures y != x {
      var i :| 0 <= i < |t.free[k][1..]| && t.free[k][1..][i] == y;
      assert t.free[k][i + 1] == y;
    }
    IsListPop(t.blocks, t'.blocks, t.freeLists[k], t.free[k]);
    forall k' | 0 <= k' < NUM_BUCKETS && k' != k
      ensures IsList(t'.blocks, t'.freeLists[k'], t'.free[k'])
    {
      assert IsList(t.blocks, t.freeLists[k'], t.free[k']);
      forall y | y in t.free[k'] ensures y != x {
        if y == x { OneFreeList(t, k, k', x); }
      }
      IsListFrame(t.blocks, t'.blocks, t.freeLists[k'], t.free[k']);
    }
  }

  lemma TakeFreeMembers(t: TextureState, k: nat)
    requires t.ArenaShape() && t.ListsLinked() && t.ListsPartition()
    requires k < NUM_BUCKETS && t.freeLists[k].Some?
    ensures t.free[k] != []
    ensures var x := t.free[k][0];
      var occupied' := [x] + t.occupied;
      var free' := t.free[k := t.free[k][1..]];
      && Distinct(occupied')
      && (forall k' :: 0 <= k' < NUM_BUCKETS ==> Distinct(free'[k']))
      && (forall k', y {:trigger y in free'[k']} :: 0 <= k' < NUM_BUCKETS && y in free'[k'] ==>
            y < |t.blocks| && y !in occupied' && t.blockSize[y] == SizeClasses()[k'])
  {
    assert IsList(t.blocks, t.freeLists[k], t.free[k]);
    var x := t.free[k][0];
    assert x in t.free[k] && x !in t.occupied;
    DistinctPop(t.free[k]);
    DistinctPush(x, t.occupied);
    var free' := t.free[k := t.free[k][1..]];
    forall k', y | 0 <= k' < NUM_BUCKETS && y in free'[k']
      ensures y != x && y in t.free[k']
    {
      if k' != k && y == x { OneFreeList(t, k, k', x); }
    }
  }

  lemma TakeCovers(t: TextureState, k: nat, frameId: nat)
    requires t.ArenaShape() && t.ListsLinked() && t.ListsPartition()
    requires k < NUM_BUCKETS && t.freeLists[k].Some?
    ensures var t' := Take(t, k, frameId);
      && t'.ArenaShape()
      && forall i: BlockIndex :: i < |t'.blocks| ==> i in t'.occupied || i in t'.free[ClassIndex(t'.blockSize[i])]
  {
    TakeShape(t, k, frameId);
    var t' := Take(t, k, frameId);
    var x := t.freeLists[k].value;
    assert IsList(t.blocks, t.freeLists[k], t.free[k]);
    assert Distinct(t.free[k]);
    DistinctPop(t.free[k]);
  }

  lemma TakePartition(t: TextureState, k: nat, frameId: nat)
    requires t.ArenaShape() && t.ListsLinked() && t.ListsPartition()
    requires k < NUM_BUCKETS && t.freeLists[k].Some?
    ensures Take(t, k, frameId).ArenaShape() && Take(t, k, frameId).ListsLinked()
    ensures Take(t, k, frameId).ListsPartition()
  {
    TakeLinked(t, k, frameId);
    TakeFreeMembers(t, k);
    TakeCovers(t, k, frameId);
    var t' := Take(t, k, frameId);
    assert t'.occupied == [t.free[k][0]] + t.occupied && t'.free == t.free[k := t.free[k][1..]];
    assert t'.blockSize == t.blockSize && |t'.blocks| == |t.blocks|;
  }

  lemma TakeAccounting(t: TextureState, k: nat, frameId: nat)
    requires t.ArenaShape() && t.ListsLinked() && t.ListsPartition() && t.Accounting()
    requires k < NUM_BUCKETS && t.freeLists[k].Some?
    ensures Take(t, k, frameId).ArenaShape()
    ensures Take(t, k, frameId).Accounting()
  {
    TakeShape(t, k, frameId);
    var t' := Take(t, k, frameId);
    var x := t.freeLists[k].value;
    assert IsList(t.blocks, t.freeLists[k], t.free[k]);
    assert x == t.free[k][0] && x in t.free[k];
    assert SumSizes(t.blockSize, [x] + t.occupied) == SizeOf(t.blockSize, x) + SumSizes(t.blockSize, t.occupied);
    SumFreeUpdate(t.blockSize, t.free, k, t.free[k][1..]);
  }

  /** Taking the head of a free list keeps the invariant. */
  lemma TakeValid(t: TextureState, k: nat, frameId: nat)
    requires t.Valid() && k < NUM_BUCKETS && t.freeLists[k].Some?
    ensures Take(t, k, frameId).Valid()
  {
    TakePartition(t, k, frameId);
    TakeAccounting(t, k, frameId);
  }
  // Releasing an occupied block

  lemma ReleaseShape(t: TextureState, pos: nat)
    requires t.ArenaShape() && t.ListsLinked() && t.Accounting() && pos < |t.occupied|
    ensures Release(t, pos).ArenaShape()
    ensures |Release(t, pos).blocks| == |t.blocks|
    ensures forall i :: 0 <= i < |t.blocks| ==> Release(t, pos).blocks[i].address == t.blocks[i].address
  {
    var t' := Release(t, pos);
    assert forall i :: 0 <= i < |t.blocks| ==> t'.blocks[i].address == t.blocks[i].address;
  }

  lemma ReleaseOccupiedLinked(t: TextureState, pos: nat)
    requires t.ArenaShape() && t.ListsLinked() && t.ListsPartition() && t.Accounting()
    requires pos < |t.occupied|
    ensures IsList(Release(t, pos).blocks, Release(t, pos).occupiedListHead, Release(t, pos).occupied)
  {
    var t' := Release(t, pos);
    var x := t.occupied[pos];
    forall i | 0 <= i < |t.occupied| && i != pos && i + 1 != pos
      ensures t.occupied[i] < |t'.blocks| && t'.blocks[t.occupied[i]].next == t.blocks[t.occupied[i]].next
    {
      assert t.occupied[i] != x;
      if pos > 0 { assert t.occupied[i] != t.occupied[pos - 1]; }
    }
    if pos > 0 { assert t.occupied[pos - 1] != x; }
    IsListUnlink(t.blocks, t'.blocks, t.occupiedListHead, t'.occupiedListHead, t.occupied, pos);
  }

  /** The blocks a release rewrites: the released one and its predecessor. */
  lemma ReleaseBlocks(t: TextureState, pos: nat)
    requires t.ArenaShape() && t.ListsLinked() && t.Accounting() && pos < |t.occupied|
    requires Distinct(t.occupied)
    ensures var t' := Release(t, pos);
      var x := t.occupied[pos];
      && |t'.blocks| == |t.blocks|
      && t'.blocks[x].next == t.freeLists[ClassIndex(t.blockSize[x])]
      && forall y :: 0 <= y < |t.blocks| && y != x && (pos == 0 || y != t.occupied[pos - 1]) ==>
           t'.blocks[y] == t.blocks[y]
  {
    var x := t.occupied[pos];
    assert pos == 0 || t.occupied[pos - 1] != x;
  }

  lemma ReleaseFreeLinked(t: TextureState, pos: nat)
    requires t.ArenaShape() && t.ListsLinked() && t.ListsPartition() && t.Accounting()
    requires pos < |t.occupied|
    ensures |Release(t, pos).freeLists| == NUM_BUCKETS && |Release(t, pos).free| == NUM_BUCKETS
    ensures forall k' :: 0 <= k' < NUM_BUCKETS ==>
      IsList(Release(t, pos).blocks, Release(t, pos).freeLists[k'], Release(t, pos).free[k'])
  {
    var t' := Release(t, pos);
    var x := t.occupied[pos];
    var k := ClassIndex(t.blockSize[x]);
    assert x in t.occupied;
    if pos > 0 { assert t.occupied[pos - 1] in t.occupied; }
    ReleaseBlocks(t, pos);
    forall k' | 0 <= k' < NUM_BUCKETS
      ensures IsList(t'.blocks, t'.freeLists[k'], t'.free[k'])
    {
      assert IsList(t.blocks, t.freeLists[k'], t.free[k']);
      // Blocks on the free lists are neither x nor its predecessor.
      forall y | y in t.free[k'] ensures y < |t'.blocks| && t'.blocks[y].next == t.blocks[y].next {
        FreeNotOccupied(t, k', y);
      }
      if k' == k {
        IsListPush(t.blocks, t'.blocks, t.freeLists[k], t.free[k], x);
      } else {
        IsListFrame(t.blocks, t'.blocks, t.freeLists[k'], t.free[k']);
      }
    }
  }

  lemma ReleaseMembers(t: TextureState, pos: nat)
    requires t.ArenaShape() && t.ListsLinked() && t.ListsPartition()
    requires pos < |t.occupied|
    ensures Distinct(Release(t, pos).occupied)
    ensures forall k' :: 0 <= k' < NUM_BUCKETS ==> Distinct(Release(t, pos).free[k'])
    ensures forall k', y {:trigger y in Release(t, pos).free[k']} :: 0 <= k' < NUM_BUCKETS && y in Release(t, pos).free[k'] ==>
      y < |t.blocks| && y !in Release(t, pos).occupied && t.blockSize[y] == SizeClasses()[k']
  {
    var x := t.occupied[pos];
    ReleaseLists(t, pos);
    var r := Release(t, pos);
    MoveToFree(t.occupied, t.free, t.blockSize, |t.blocks|, pos, ClassIndex(t.blockSize[x]), r.occupied, r.free);
  }

  /** A release takes the block off the occupied list and puts it on the front of its class's free list. */
  lemma ReleaseLists(t: TextureState, pos: nat)
    requires t.ArenaShape() && t.ListsLinked() && pos < |t.occupied|
    ensures Releasable(t, pos)
    ensures Release(t, pos).occupied == t.occupied[..pos] + t.occupied[pos + 1..]
    ensures Release(t, pos).free == t.free[ClassIndex(t.blockSize[t.occupied[pos]]) := [t.occupied[pos]] + t.free[ClassIndex(t.blockSize[t.occupied[pos]])]]
  {
    assert t.occupied[pos] in t.occupied;
    if pos > 0 { assert t.occupied[pos - 1] in t.occupied; }
  }

  /**
   * Moving the occupied element at `pos` to the front of free list `k`
   * keeps every list distinct and the free lists apart from the occupied one.
   */
  lemma MoveToFree(occupied: seq<BlockIndex>, free: seq<seq<BlockIndex>>, blockSize: seq<nat>, n: nat, pos: nat, k: nat,
                   occupied': seq<BlockIndex>, free': seq<seq<BlockIndex>>)
    requires Distinct(occupied) && pos < |occupied| && |free| == NUM_BUCKETS && k < NUM_BUCKETS
    requires n <= |blockSize|
    requires forall k' :: 0 <= k' < NUM_BUCKETS ==> Distinct(free[k'])
    requires forall k', y {:trigger y in free[k']} :: 0 <= k' < NUM_BUCKETS && y in free[k'] ==>
      y < n && y !in occupied && blockSize[y] == SizeClasses()[k']
    requires occupied[pos] < n && blockSize[occupied[pos]] == SizeClasses()[k]
    requires occupied' == occupied[..pos] + occupied[pos + 1..]
    requires free' == free[k := [occupied[pos]] + free[k]]
    ensures Distinct(occupied')
    ensures forall k' :: 0 <= k' < NUM_BUCKETS ==> Distinct(free'[k'])
    ensures forall k', y {:trigger y in free'[k']} :: 0 <= k' < NUM_BUCKETS && y in free'[k'] ==>
      y < n && y !in occupied' && blockSize[y] == SizeClasses()[k']
  {
    var x := occupied[pos];
    assert x in occupied;
    DistinctRemove(occupied, pos);
    DistinctPush(x, free[k]);
    forall k' | 0 <= k' < NUM_BUCKETS ensures Distinct(free'[k']) {
      if k' != k { assert free'[k'] == free[k']; }
    }
    forall k', y | 0 <= k' < NUM_BUCKETS && y in free'[k']
      ensures y < n && y !in occupied' && blockSize[y] == SizeClasses()[k']
    {
      if k' != k {
        assert free'[k'] == free[k'];
        assert y in free[k'];
        assert y < n && y !in occupied;
      } else if y != x {
        assert y in free[k];
        assert y < n && y !in occupied;
      }
    }
  }

  lemma ReleaseCovers(t: TextureState, pos: nat)
    requires t.ArenaShape() && t.ListsLinked() && t.ListsPartition()
    requires pos < |t.occupied|
    ensures var x := t.occupied[pos];
      var k := ClassIndex(t.blockSize[x]);
      var occupied' := t.occupied[..pos] + t.occupied[pos + 1..];
      var free' := t.free[k := [x] + t.free[k]];
      forall i: BlockIndex :: i < |t.blocks| ==> i in occupied' || i in free'[ClassIndex(t.blockSize[i])]
  {
    var x := t.occupied[pos];
    var k := ClassIndex(t.blockSize[x]);
    var occupied' := t.occupied[..pos] + t.occupied[pos + 1..];
    var free' := t.free[k := [x] + t.free[k]];
    assert x in t.occupied && x < |t.blocks|;
    DistinctRemove(t.occupied, pos);
    forall i: BlockIndex | i < |t.blocks|
      ensures i in occupied' || i in free'[ClassIndex(t.blockSize[i])]
    {
      var ki := ClassIndex(t.blockSize[i]);
      if i == x {
        assert free'[k] == [x] + t.free[k];
      } else if i !in t.occupied {
        assert i in t.free[ki];
        if ki == k { assert free'[k] == [x] + t.free[k]; }
      }
    }
  }

  lemma ReleasePartition(t: TextureState, pos: nat)
    requires t.ArenaShape() && t.ListsLinked() && t.ListsPartition() && t.Accounting()
    requires pos < |t.occupied|
    ensures Release(t, pos).ArenaShape() && Release(t, pos).ListsLinked()
    ensures Release(t, pos).ListsPartition()
  {
    ReleaseShape(t, pos);
    ReleaseOccupiedLinked(t, pos);
    ReleaseFreeLinked(t, pos);
    ReleaseMembers(t, pos);
    ReleaseCovers(t, pos);
  }

  lemma ReleaseAccounting(t: TextureState, pos: nat)
    requires t.ArenaShape() && t.ListsLinked() && t.Accounting() && pos < |t.occupied|
    ensures Release(t, pos).ArenaShape()
    ensures Release(t, pos).Accounting()
  {
    ReleaseShape(t, pos);
    ReleaseFields(t, pos);
    var x := t.occupied[pos];
    var k := ClassIndex(t.blockSize[x]);
    assert x in t.occupied;
    SumSizesRemove(t.blockSize, t.occupied, pos);
    SumFreeUpdate(t.blockSize, t.free, k, [x] + t.free[k]);
    assert SumSizes(t.blockSize, [x] + t.free[k]) == SizeOf(t.blockSize, x) + SumSizes(t.blockSize, t.free[k]);
  }

  lemma ReleaseEpochs(t: TextureState, pos: nat)
    requires t.Valid() && pos < |t.occupied|
    ensures Release(t, pos).EpochsBounded() && Release(t, pos).IssuedSound()
  {
    var t' := Release(t, pos);
    var x := t.occupied[pos];
    ReleaseFields(t, pos);
    assert x in t.occupied;
    DistinctRemove(t.occupied, pos);
    forall i | 1 <= i < |t'.blocks|
      ensures t'.blocks[i].epoch == if i == x then t.blocks[i].epoch + 1 else t.blocks[i].epoch
    {
    }
  }

  /** Releasing an occupied block keeps the invariant. */
  lemma ReleaseValid(t: TextureState, pos: nat)
    requires t.Valid() && pos < |t.occupied|
    ensures Release(t, pos).Valid()
  {
    ReleasePartition(t, pos);
    ReleaseAccounting(t, pos);
    ReleaseEpochs(t, pos);
  }
  // Epochs, access stamps and the upload queue

  /** The arena fields two states share when only epochs, stamps or the queue differ. */
  ghost predicate SameLists(t: TextureState, t': TextureState)
  {
    && |t'.blocks| == |t.blocks| && |t.blocks| >= 1 && t'.blocks[0] == t.blocks[0]
    && (forall i :: 0 <= i < |t.blocks| ==> t'.blocks[i].next == t.blocks[i].next && t'.blocks[i].address == t.blocks[i].address)
    && t'.height == t.height && t'.rows == t.rows && t'.freeLists == t.freeLists
    && t'.occupiedListHead == t.occupiedListHead && t'.allocatedBlockCount == t.allocatedBlockCount
    && t'.blockSize == t.blockSize && t'.occupied == t.occupied && t'.free == t.free
  }

  lemma SameListsLinked(t: TextureState, t': TextureState)
    requires t.ArenaShape() && t.ListsLinked() && SameLists(t, t')
    ensures t'.ArenaShape() && t'.ListsLinked()
  {
    IsListFrame(t.blocks, t'.blocks, t.occupiedListHead, t.occupied);
    forall k | 0 <= k < NUM_BUCKETS ensures IsList(t'.blocks, t'.freeLists[k], t'.free[k]) {
      IsListFrame(t.blocks, t'.blocks, t.freeLists[k], t.free[k]);
    }
  }

  lemma SameListsPartition(t: TextureState, t': TextureState)
    requires t.ArenaShape() && t.ListsLinked() && t.ListsPartition() && t.Accounting() && SameLists(t, t')
    ensures t'.ArenaShape() && t'.ListsLinked() && t'.ListsPartition() && t'.Accounting()
  {
    SameListsLinked(t, t');
  }

  /** Advancing one block's epoch keeps the invariant. */
  lemma BumpEpochValid(t: TextureState, x: BlockIndex)
    requires t.Valid() && x < |t.blocks|
    ensures BumpEpoch(t, x).Valid()
    ensures BumpEpoch(t, x).blocks[x].epoch == t.blocks[x].epoch + 1
  {
    SameListsPartition(t, BumpEpoch(t, x));
  }

  /** Stamping a block with the current frame keeps the invariant. */
  lemma TouchValid(t: TextureState, x: BlockIndex, frameId: nat)
    requires t.Valid() && x < |t.blocks|
    ensures Touch(t, x, frameId).Valid()
  {
    SameListsPartition(t, Touch(t, x, frameId));
  }

  /**
   * Recording a location that designates an occupied block, with copy
   * commands that read pending blocks, keeps the invariant.
   */
  lemma RecordValid(t: TextureState, loc: CacheLocation, copies: seq<GpuCacheUpdate>)
    requires t.Valid() && Matches(t.blocks, loc) && loc.blockIndex in t.occupied
    requires forall u :: u in copies ==> u.blockIndex + u.blockCount <= |t.pendingBlocks|
    ensures Record(t, loc, copies).Valid()
  {
    SameListsPartition(t, Record(t, loc, copies));
  }

  /** Stamping a block with the frame it already carries changes nothing. */
  lemma TouchUnchanged(t: TextureState, x: BlockIndex, frameId: nat)
    requires x < |t.blocks| && t.blocks[x].lastAccessTime == frameId
    ensures Touch(t, x, frameId) == t
  {
    assert t.blocks[x := t.blocks[x].(lastAccessTime := frameId)] == t.blocks;
  }

  /** No location handed out runs ahead of the epoch watermark. */
  lemma IssuedBelowWatermark(t: TextureState)
    requires t.Valid()
    ensures forall loc :: loc in t.issued ==> loc.epoch <= t.maxEpoch
  {
    forall loc | loc in t.issued ensures loc.epoch <= t.maxEpoch {
      assert 1 <= loc.blockIndex < |t.blocks|;
    }
  }

  /** A location whose epoch is below the base epoch matches no block. */
  lemma BelowBaseNeverMatches(t: TextureState, loc: CacheLocation)
    requires t.Valid() && loc.epoch < t.baseEpoch
    ensures !Matches(t.blocks, loc)
  {
    if loc.blockIndex < |t.blocks| {
      assert t.baseEpoch <= t.blocks[loc.blockIndex].epoch;
    }
  }

  /** Appending blocks to the pending buffer keeps the invariant. */
  lemma PendingGrowValid(t: TextureState, data: seq<GpuBlockData>)
    requires t.Valid()
    ensures t.(pendingBlocks := t.pendingBlocks + data).Valid()
  {
    SameListsPartition(t, t.(pendingBlocks := t.pendingBlocks + data));
  }

  /** Handing the pending blocks and their copy commands over keeps the invariant. */
  lemma DrainValid(t: TextureState)
    requires t.Valid()
    ensures t.(pendingBlocks := [], updates := []).Valid()
  {
    SameListsPartition(t, t.(pendingBlocks := [], updates := []));
  }

  /** What a release writes, field by field, for the block `x` at `pos` whose class is list `k`. */
  lemma ReleaseFields(t: TextureState, pos: nat)
    requires t.ArenaShape() && t.ListsLinked() && t.Accounting() && pos < |t.occupied|
    ensures var x := t.occupied[pos]; var r := Release(t, pos);
      && x < |t.blocks| && t.blocks[x].address.v < |t.rows|
      && t.rows[t.blocks[x].address.v].blockCountPerItem == t.blockSize[x]
      && t.blockSize[x] in SizeClasses() && t.blockSize[x] <= t.allocatedBlockCount
      && (pos > 0 ==> t.occupied[pos - 1] < |t.blocks|)
      && var k := ClassIndex(t.blockSize[x]);
      && k < |t.freeLists| && k < |t.free|
      && var released := t.blocks[x := AdvanceEpoch(t.blocks[x], t.maxEpoch).0.(next := t.freeLists[k])];
      && r.blocks == (if pos == 0 then released
                      else released[t.occupied[pos - 1] := released[t.occupied[pos - 1]].(next := t.blocks[x].next)])
      && r.maxEpoch == AdvanceEpoch(t.blocks[x], t.maxEpoch).1
      && r.freeLists == t.freeLists[k := Some(x)]
      && r.occupiedListHead == (if pos == 0 then t.blocks[x].next else t.occupiedListHead)
      && r.allocatedBlockCount == t.allocatedBlockCount - t.blockSize[x]
      && r.occupied == t.occupied[..pos] + t.occupied[pos + 1..]
      && r.free == t.free[k := [x] + t.free[k]]
      && r == t.(blocks := r.blocks, maxEpoch := r.maxEpoch, freeLists := r.freeLists, occupiedListHead := r.occupiedListHead,
                 allocatedBlockCount := r.allocatedBlockCount, occupied := r.occupied, free := r.free)
  {
    var x := t.occupied[pos];
    assert x in t.occupied;
    SumSizesRemove(t.blockSize, t.occupied, pos);
    if pos > 0 { assert t.occupied[pos - 1] in t.occupied; }
  }

  /** Unlinking the block at `pos` through its predecessor is releasing it. */
  lemma ReleaseUnlinks(t: TextureState, pos: nat)
    requires t.ArenaShape() && t.ListsLinked() && t.Accounting() && pos < |t.occupied|
    ensures var prev := if pos == 0 then None else Some(t.occupied[pos - 1]);
      && CanUnlink(t, pos, t.occupied[pos], prev)
      && Release(t, pos) == Unlink(t, pos, t.occupied[pos], prev)
  {
    ReleaseFields(t, pos);
  }

  /**
   * Releasing the block at `pos` changes no stamp and no address, and
   * advances the epoch of that block alone.
   */
  lemma ReleaseStamps(t: TextureState, pos: nat)
    requires t.ArenaShape() && t.ListsLinked() && t.Accounting() && pos < |t.occupied|
    requires Distinct(t.occupied)
    ensures |Release(t, pos).blocks| == |t.blocks|
    ensures forall i :: 0 <= i < |t.blocks| ==>
      && Release(t, pos).blocks[i].lastAccessTime == t.blocks[i].lastAccessTime
      && Release(t, pos).blocks[i].address == t.blocks[i].address
      && Release(t, pos).blocks[i].epoch == if i == t.occupied[pos] then t.blocks[i].epoch + 1 else t.blocks[i].epoch
  {
    IsListBounded(t.blocks, t.occupiedListHead, t.occupied);
    if pos > 0 {
      assert t.occupied[pos - 1] != t.occupied[pos];
    }
  }

  // ---------------------------------------------------------------------------
  // Allocation as a whole

  /**
   * The arena side of `push_data` once the request is bucketed into free
   * list `k`: carve a row of class `SizeClasses()[k]` when that list is
   * empty, then take its head.
   */
  ghost function Allocate(t: TextureState, k: nat, frameId: nat): TextureState
    requires t.ArenaShape() && t.ListsLinked() && k < NUM_BUCKETS
  {
    if t.freeLists[k].None? then
      CarveLinked(t, k, frameId);
      Take(Carve(t, k, frameId), k, frameId)
    else
      Take(t, k, frameId)
  }

  /** Every item of a carved row lies within the row, after the items before it. */
  lemma CarvedBlocksFit(start: BlockIndex, rowIndex: nat, k: nat, epoch: nat, frameId: nat)
    requires k < NUM_BUCKETS
    ensures var c := SizeClasses()[k]; var n := ItemsPerRow(c);
      var s := CarvedBlocks(start, rowIndex, c, n, epoch, frameId);
      && n == MAX_VERTEX_TEXTURE_WIDTH / c
      && (forall j :: 0 <= j < n ==> s[j].address.v == rowIndex && s[j].address.u + c <= MAX_VERTEX_TEXTURE_WIDTH)
      && (forall i, j :: 0 <= i < j < n ==> s[i].address.u + c <= s[j].address.u)
  {
    var c := SizeClasses()[k];
    var n := ItemsPerRow(c);
    var s := CarvedBlocks(start, rowIndex, c, n, epoch, frameId);
    forall j | 0 <= j < n ensures s[j].address.u + c <= MAX_VERTEX_TEXTURE_WIDTH {
      calc {
        s[j].address.u + c;
        (j + 1) * c;
      <= { assert j + 1 <= n; }
        n * c;
      <= MAX_VERTEX_TEXTURE_WIDTH;
      }
    }
    forall i, j | 0 <= i < j < n ensures s[i].address.u + c <= s[j].address.u {
      assert (i + 1) * c <= j * c;
    }
  }

  /** Allocation keeps the invariant. */
  lemma AllocateValid(t: TextureState, k: nat, frameId: nat)
    requires t.Valid() && k < NUM_BUCKETS
    ensures Allocate(t, k, frameId).Valid()
  {
    if t.freeLists[k].None? {
      CarveValid(t, k, frameId);
      TakeValid(Carve(t, k, frameId), k, frameId);
    } else {
      TakeValid(t, k, frameId);
    }
  }

  /**
   * `push_data` on the arena: the allocated block was on no list but a free
   * one of its class, goes on the front of the occupied list with its stamp
   * set to `frameId`, and the allocated count grows by its size class.
   */
  lemma AllocateTakes(t: TextureState, k: nat, frameId: nat)
    requires t.ArenaShape() && t.ListsLinked() && t.ListsPartition() && k < NUM_BUCKETS
    ensures var t' := Allocate(t, k, frameId);
      && t'.occupied != [] && t'.occupied[1..] == t.occupied && t'.occupied[0] !in t.occupied
      && t'.occupiedListHead == Some(t'.occupied[0])
      && t'.blockSize[t'.occupied[0]] == SizeClasses()[k]
      && t'.blocks[t'.occupied[0]].lastAccessTime == frameId
      && t'.allocatedBlockCount == t.allocatedBlockCount + SizeClasses()[k]
  {
    if t.freeLists[k].None? {
      var t1 := Carve(t, k, frameId);
      CarvePartition(t, k, frameId);
      FreeNotOccupied(t1, k, t1.free[k][0]);
      assert [t1.free[k][0]] + t1.occupied == Allocate(t, k, frameId).occupied;
    } else {
      FreeNotOccupied(t, k, t.free[k][0]);
      assert [t.free[k][0]] + t.occupied == Allocate(t, k, frameId).occupied;
    }
  }

  /**
   * A row is carved only when the free list was empty, and the height
   * grows only when every row was in use; epochs and the upload queue are
   * left alone.
   */
  lemma AllocateCarves(t: TextureState, k: nat, frameId: nat)
    requires t.ArenaShape() && t.ListsLinked() && k < NUM_BUCKETS
    ensures var t' := Allocate(t, k, frameId);
      && t'.rows == t.rows + (if t.freeLists[k].None? then [Row(SizeClasses()[k])] else [])
      && t'.height == (if t.freeLists[k].None? && |t.rows| == t.height then t.height + NEW_ROWS_PER_RESIZE else t.height)
      && t'.baseEpoch == t.baseEpoch && t'.maxEpoch == t.maxEpoch
      && t'.pendingBlocks == t.pendingBlocks && t'.updates == t.updates && t'.issued == t.issued
  {
  }

  // ---------------------------------------------------------------------------
  // `push_data` as a whole

  /** The location `push_data` hands out from free list `k`: the block taken, at its epoch. */
  ghost function AllocatedAt(t: TextureState, k: nat, frameId: nat): CacheLocation
    requires t.ArenaShape() && t.ListsLinked() && k < NUM_BUCKETS
  {
    var t' := Allocate(t, k, frameId);
    var x := t'.occupiedListHead.value;
    CacheLocation(x, t'.blocks[x].epoch)
  }

  /** The copy command `push_data` queues: one, reading the pending blocks from `pendingBlockIndex`, if given. */
  ghost function PushCopies(t: TextureState, k: nat, frameId: nat, pendingBlockIndex: Option<nat>, blockCount: nat): seq<GpuCacheUpdate>
    requires t.ArenaShape() && t.ListsLinked() && k < NUM_BUCKETS
  {
    var t' := Allocate(t, k, frameId);
    var x := AllocatedAt(t, k, frameId).blockIndex;
    if pendingBlockIndex.Some? then [Copy(pendingBlockIndex.value, blockCount, t'.blocks[x].address)] else []
  }

  /** `push_data` for a request bucketed into free list `k`. */
  ghost function Push(t: TextureState, k: nat, frameId: nat, pendingBlockIndex: Option<nat>, blockCount: nat): TextureState
    requires t.ArenaShape() && t.ListsLinked() && k < NUM_BUCKETS
  {
    Record(Allocate(t, k, frameId), AllocatedAt(t, k, frameId), PushCopies(t, k, frameId, pendingBlockIndex, blockCount))
  }

  /**
   * `push_data` keeps the invariant when its copy command reads pending
   * blocks.
   */
  lemma PushValid(t: TextureState, k: nat, frameId: nat, pendingBlockIndex: Option<nat>, blockCount: nat)
    requires t.Valid() && k < NUM_BUCKETS
    requires pendingBlockIndex.Some? ==> pendingBlockIndex.value + blockCount <= |t.pendingBlocks|
    ensures Push(t, k, frameId, pendingBlockIndex, blockCount).Valid()
  {
    AllocateValid(t, k, frameId);
    AllocateTakes(t, k, frameId);
    var t1 := Allocate(t, k, frameId);
    var loc := AllocatedAt(t, k, frameId);
    var copies := PushCopies(t, k, frameId, pendingBlockIndex, blockCount);
    assert loc.blockIndex == t1.occupied[0];
    assert t1.pendingBlocks == t.pendingBlocks;
    RecordValid(t1, loc, copies);
  }

  /**
   * The location `push_data` returns matches its block, which is occupied
   * now, was free before, and is recorded as handed out; the block is
   * stamped with the frame and its class is counted as allocated.
   */
  lemma PushEffects(t: TextureState, k: nat, frameId: nat, pendingBlockIndex: Option<nat>, blockCount: nat)
    requires t.ArenaShape() && t.ListsLinked() && t.ListsPartition() && k < NUM_BUCKETS
    ensures var t' := Push(t, k, frameId, pendingBlockIndex, blockCount); var loc := AllocatedAt(t, k, frameId);
      && Matches(t'.blocks, loc) && loc.blockIndex in t'.occupied && loc.blockIndex !in t.occupied
      && t'.occupied == [loc.blockIndex] + t.occupied
      && t'.blocks[loc.blockIndex].lastAccessTime == frameId
      && t'.blockSize[loc.blockIndex] == SizeClasses()[k]
      && t'.allocatedBlockCount == t.allocatedBlockCount + SizeClasses()[k]
      && t'.issued == t.issued + {loc}
      && t'.updates == t.updates + PushCopies(t, k, frameId, pendingBlockIndex, blockCount)
  {
    AllocateTakes(t, k, frameId);
    var t1 := Allocate(t, k, frameId);
    assert t1.occupied == [t1.occupied[0]] + t1.occupied[1..];
  }
}
