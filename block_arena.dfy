/**
 * The value types of the GPU cache (blocks, addresses, locations, rows,
 * update commands) and the specification of its intrusive lists: a list
 * is a head index plus the `next` links of the blocks it threads, and is
 * described by the ghost sequence of indices it visits.
 */
module BlockArena {
  import opened Wrappers
  import opened FreeBlockLists

  /** One 16-byte texel of cache data; its four floats are not modelled. */
  type GpuBlockData(==)

  /** Index of a block in the arena. Index 0 is the sentinel and is never used. */
  type BlockIndex = i: nat | 0 < i witness 1

  /** The frame stamp of a block that was never accessed. */
  const INVALID_FRAME: nat := 0

  /** The number of frames an entry can go unused before being evicted. */
  const FRAMES_BEFORE_EVICTION: nat := 10

  /** Column `u` and row `v` of a block in the cache texture. */
  datatype GpuCacheAddress = GpuCacheAddress(u: nat, v: nat)

  /** A block index together with the epoch it had when it was handed out. */
  datatype CacheLocation = CacheLocation(blockIndex: BlockIndex, epoch: nat)

  /**
   * A slot of the arena. `next` threads the block onto the one list it is
   * on: the free list of its row's class, or the occupied list.
   */
  datatype Block = Block(address: GpuCacheAddress, epoch: nat, next: Option<BlockIndex>, lastAccessTime: nat)

  /** The dummy block stored at index 0. */
  const INVALID_BLOCK: Block := Block(GpuCacheAddress(0, 0), 0, None, INVALID_FRAME)

  /** Metadata of a cache row: the size class it was carved for. */
  datatype Row = Row(blockCountPerItem: nat)

  /** Copy `blockCount` pending blocks, starting at `blockIndex`, to `address`. */
  datatype GpuCacheUpdate = Copy(blockIndex: nat, blockCount: nat, address: GpuCacheAddress)

  /** Advisory commands for the debug display. */
  datatype GpuCacheDebugCmd = Alloc(address: GpuCacheAddress, size: nat) | Free(freed: GpuCacheAddress)

  /**
   * `Block::advance_epoch`: the block's epoch moves on by one and the
   * watermark `maxEpoch` is raised to it when it was lower.
   */
  function AdvanceEpoch(block: Block, maxEpoch: nat): (r: (Block, nat))
    ensures r.0.epoch == block.epoch + 1
    ensures r.0.address == block.address && r.0.next == block.next && r.0.lastAccessTime == block.lastAccessTime
    ensures maxEpoch <= r.1 && r.0.epoch <= r.1
    ensures r.1 == maxEpoch || r.1 == r.0.epoch
  {
    var advanced := block.(epoch := block.epoch + 1);
    (advanced, if maxEpoch < advanced.epoch then advanced.epoch else maxEpoch)
  }

  /** A location still designates the live contents of its block. */
  predicate Matches(blocks: seq<Block>, loc: CacheLocation)
  {
    loc.blockIndex < |blocks| && blocks[loc.blockIndex].epoch == loc.epoch
  }

  /** Whether a block has gone unused for longer than the eviction age at `frameId`. */
  predicate IsStale(block: Block, frameId: nat)
  {
    block.lastAccessTime + FRAMES_BEFORE_EVICTION < frameId
  }

  // ---------------------------------------------------------------------------
  // Intrusive lists

  /** `s` is the list that starts at `head` and follows the `next` links. */
  ghost predicate IsList(blocks: seq<Block>, head: Option<BlockIndex>, s: seq<BlockIndex>)
  {
    && (forall i :: 0 <= i < |s| ==> s[i] < |blocks|)
    && head == (if s == [] then None else Some(s[0]))
    && (forall i {:trigger blocks[s[i]]} :: 0 <= i < |s| ==>
          blocks[s[i]].next == if i + 1 < |s| then Some(s[i + 1]) else None)
  }

  ghost predicate Distinct(s: seq<BlockIndex>)
  {
    forall i, j :: 0 <= i < j < |s| ==> s[i] != s[j]
  }

  /** Every index on a list designates a block of the arena. */
  lemma IsListBounded(blocks: seq<Block>, head: Option<BlockIndex>, s: seq<BlockIndex>)
    requires IsList(blocks, head, s)
    ensures forall y :: y in s ==> y < |blocks|
  {
  }

  /** Changing blocks off the list, or fields other than `next`, keeps the list. */
  lemma IsListFrame(b1: seq<Block>, b2: seq<Block>, head: Option<BlockIndex>, s: seq<BlockIndex>)
    requires IsList(b1, head, s)
    requires forall x :: x in s ==> x < |b2| && b2[x].next == b1[x].next
    ensures IsList(b2, head, s)
  {
    forall i | 0 <= i < |s|
      ensures s[i] < |b2| && b2[s[i]].next == b1[s[i]].next
    {
      assert s[i] in s;
    }
  }

  /** Pushing `x` on the front of a list whose other links are kept. */
  lemma IsListPush(b1: seq<Block>, b2: seq<Block>, head: Option<BlockIndex>, s: seq<BlockIndex>, x: BlockIndex)
    requires IsList(b1, head, s)
    requires x < |b2| && b2[x].next == head
    requires forall y :: y in s ==> y < |b2| && b2[y].next == b1[y].next
    ensures IsList(b2, Some(x), [x] + s)
  {
    var t := [x] + s;
    forall i | 0 <= i < |t|
      ensures t[i] < |b2| && b2[t[i]].next == if i + 1 < |t| then Some(t[i + 1]) else None
    {
      if i == 0 {
        if s != [] { assert t[1] == s[0]; }
      } else {
        assert t[i] == s[i - 1] && s[i - 1] in s;
        assert b1[s[i - 1]].next == if i < |s| then Some(s[i]) else None;
        if i + 1 < |t| { assert t[i + 1] == s[i]; }
      }
    }
  }

  /** Popping the head of a list whose other links are kept. */
  lemma IsListPop(b1: seq<Block>, b2: seq<Block>, head: Option<BlockIndex>, s: seq<BlockIndex>)
    requires IsList(b1, head, s) && s != []
    requires forall y :: y in s[1..] ==> y < |b2| && b2[y].next == b1[y].next
    ensures IsList(b2, b1[s[0]].next, s[1..])
  {
    var t := s[1..];
    assert b1[s[0]].next == if 1 < |s| then Some(s[1]) else None;
    forall i | 0 <= i < |t|
      ensures t[i] < |b2| && b2[t[i]].next == if i + 1 < |t| then Some(t[i + 1]) else None
    {
      assert t[i] == s[i + 1] && t[i] in t;
      assert b1[s[i + 1]].next == if i + 2 < |s| then Some(s[i + 2]) else None;
      if i + 1 < |t| { assert t[i + 1] == s[i + 2]; }
    }
  }

  /**
   * Unlinking the element at `pos`: its predecessor (or the head) takes
   * over its `next` link, every other link is kept.
   */
  lemma IsListUnlink(b1: seq<Block>, b2: seq<Block>, head1: Option<BlockIndex>, head2: Option<BlockIndex>, s: seq<BlockIndex>, pos: nat)
    requires IsList(b1, head1, s) && pos < |s|
    requires head2 == if pos == 0 then b1[s[0]].next else head1
    requires pos > 0 ==> s[pos - 1] < |b2| && b2[s[pos - 1]].next == b1[s[pos]].next
    requires forall i :: 0 <= i < |s| && i != pos && i + 1 != pos ==> s[i] < |b2|
    requires forall i {:trigger b2[s[i]]} :: 0 <= i < |s| && i != pos && i + 1 != pos ==> b2[s[i]].next == b1[s[i]].next
    ensures IsList(b2, head2, s[..pos] + s[pos + 1..])
  {
    var t := s[..pos] + s[pos + 1..];
    RemoveAtIndex(s, pos);
    assert forall i {:trigger t[i]} :: 0 <= i < |t| ==> t[i] == if i < pos then s[i] else s[i + 1];
    IsListRemoved(b1, b2, head1, head2, s, t, pos);
  }

  /** The elements of `s` with the one at `pos` removed, index by index. */
  lemma RemoveAtIndex(s: seq<BlockIndex>, pos: nat)
    requires pos < |s|
    ensures |s[..pos] + s[pos + 1..]| == |s| - 1
    ensures forall i {:trigger (s[..pos] + s[pos + 1..])[i]} :: 0 <= i < |s| - 1 ==> (s[..pos] + s[pos + 1..])[i] == if i < pos then s[i] else s[i + 1]
  {
  }

  /** `IsListUnlink` for a sequence `t` given index by index. */
  lemma IsListRemoved(b1: seq<Block>, b2: seq<Block>, head1: Option<BlockIndex>, head2: Option<BlockIndex>, s: seq<BlockIndex>, t: seq<BlockIndex>, pos: nat)
    requires IsList(b1, head1, s) && pos < |s|
    requires head2 == if pos == 0 then b1[s[0]].next else head1
    requires pos > 0 ==> s[pos - 1] < |b2| && b2[s[pos - 1]].next == b1[s[pos]].next
    requires forall i :: 0 <= i < |s| && i != pos && i + 1 != pos ==> s[i] < |b2|
    requires forall i {:trigger b2[s[i]]} :: 0 <= i < |s| && i != pos && i + 1 != pos ==> b2[s[i]].next == b1[s[i]].next
    requires |t| == |s| - 1 && forall i {:trigger t[i]} :: 0 <= i < |t| ==> t[i] == if i < pos then s[i] else s[i + 1]
    ensures IsList(b2, head2, t)
  {
    assert b1[s[pos]].next == if pos + 1 < |s| then Some(s[pos + 1]) else None;
    if t != [] {
      assert t[0] == if pos == 0 then s[1] else s[0];
    }
    forall i | 0 <= i < |t|
      ensures t[i] < |b2| && b2[t[i]].next == if i + 1 < |t| then Some(t[i + 1]) else None
    {
      var j := if i < pos then i else i + 1;
      assert t[i] == s[j];
      if j + 1 != pos {
        assert s[j] < |b2| && b2[s[j]].next == b1[s[j]].next;
      }
      assert b1[s[j]].next == if j + 1 < |s| then Some(s[j + 1]) else None;
      if i + 1 < |t| {
        assert t[i + 1] == if i + 1 < pos then s[i + 1] else s[i + 2];
      }
    }
  }

  /** The tail of a list of distinct elements is everything but its head. */
  lemma DistinctPop(s: seq<BlockIndex>)
    requires Distinct(s) && s != []
    ensures Distinct(s[1..])
    ensures forall y :: y in s[1..] <==> y in s && y != s[0]
  {
    forall y | y in s[1..] ensures y != s[0] {
      var i :| 0 <= i < |s[1..]| && s[1..][i] == y;
      assert s[i + 1] == y;
    }
    assert s == [s[0]] + s[1..];
  }

  /** Pushing an element that is not on a list of distinct elements keeps it distinct. */
  lemma DistinctPush(x: BlockIndex, s: seq<BlockIndex>)
    requires Distinct(s) && x !in s
    ensures Distinct([x] + s)
  {
    var t := [x] + s;
    forall i, j | 0 <= i < j < |t| ensures t[i] != t[j] {
      assert t[j] == s[j - 1];
      if i > 0 { assert t[i] == s[i - 1]; }
    }
  }

  /** Removing one element keeps a list of distinct elements distinct. */
  lemma DistinctRemove(s: seq<BlockIndex>, pos: nat)
    requires Distinct(s) && pos < |s|
    ensures Distinct(s[..pos] + s[pos + 1..])
    ensures forall x :: x in s[..pos] + s[pos + 1..] <==> x in s && x != s[pos]
  {
    var t := s[..pos] + s[pos + 1..];
    forall i, j | 0 <= i < j < |t| ensures t[i] != t[j] {
      var i' := if i < pos then i else i + 1;
      var j' := if j < pos then j else j + 1;
      assert t[i] == s[i'] && t[j] == s[j'];
    }
    forall x | x in s && x != s[pos] ensures x in t {
      var i :| 0 <= i < |s| && s[i] == x;
      if i < pos { assert t[i] == x; } else { assert t[i - 1] == x; }
    }
  }

  /** The indices `start + n - 1`, ..., `start`: a freshly carved row's free list. */
  ghost function Countdown(start: BlockIndex, n: nat): (s: seq<BlockIndex>)
    ensures |s| == n
    ensures forall i :: 0 <= i < n ==> s[i] == start + n - 1 - i
  {
    seq(n, i requires 0 <= i < n => (start + n - 1 - i) as BlockIndex)
  }

  /** A freshly carved free list visits each new index once, all at or above `start`. */
  lemma CountdownDistinct(start: BlockIndex, n: nat)
    ensures Distinct(Countdown(start, n))
    ensures forall x :: x in Countdown(start, n) <==> start <= x < start + n
  {
    var s := Countdown(start, n);
    forall x | start <= x < start + n ensures x in s {
      assert s[start + n - 1 - x] == x;
    }
  }

  // ---------------------------------------------------------------------------
  // Block counts

  /** The size class of block `x`, 0 for an index outside `blockSize`. */
  function SizeOf(blockSize: seq<nat>, x: nat): nat
  {
    if x < |blockSize| then blockSize[x] else 0
  }

  /** Total size, in blocks, of the items on a list. */
  ghost function SumSizes(blockSize: seq<nat>, s: seq<BlockIndex>): nat
  {
    if s == [] then 0 else SizeOf(blockSize, s[0]) + SumSizes(blockSize, s[1..])
  }

  /** Total size of the items on all free lists. */
  ghost function SumFree(blockSize: seq<nat>, free: seq<seq<BlockIndex>>): nat
  {
    if free == [] then 0 else SumSizes(blockSize, free[0]) + SumFree(blockSize, free[1..])
  }

  /** Blocks that all rows carved so far provide, counted in blocks. */
  ghost function RowsCapacity(rows: seq<Row>): nat
    requires forall v :: 0 <= v < |rows| ==> rows[v].blockCountPerItem in SizeClasses()
  {
    if rows == [] then 0
    else
      var c := rows[|rows| - 1].blockCountPerItem;
      RowsCapacity(rows[..|rows| - 1]) + ItemsPerRow(c) * c
  }

  lemma {:induction false} SumSizesAppend(blockSize: seq<nat>, a: seq<BlockIndex>, b: seq<BlockIndex>)
    ensures SumSizes(blockSize, a + b) == SumSizes(blockSize, a) + SumSizes(blockSize, b)
  {
    if a == [] {
      assert a + b == b;
    } else {
      assert (a + b)[0] == a[0] && (a + b)[1..] == a[1..] + b;
      SumSizesAppend(blockSize, a[1..], b);
    }
  }

  /** Removing one item from a list takes exactly its size off the total. */
  lemma SumSizesRemove(blockSize: seq<nat>, s: seq<BlockIndex>, pos: nat)
    requires pos < |s|
    ensures SumSizes(blockSize, s) == SumSizes(blockSize, s[..pos] + s[pos + 1..]) + SizeOf(blockSize, s[pos])
  {
    assert s == s[..pos] + ([s[pos]] + s[pos + 1..]);
    SumSizesAppend(blockSize, s[..pos], [s[pos]] + s[pos + 1..]);
    SumSizesAppend(blockSize, s[..pos], s[pos + 1..]);
    assert SumSizes(blockSize, [s[pos]] + s[pos + 1..]) == SizeOf(blockSize, s[pos]) + SumSizes(blockSize, s[pos + 1..]);
  }

  /** Appending sizes for new blocks leaves the total of a list of old blocks alone. */
  lemma {:induction false} SumSizesExtend(blockSize: seq<nat>, more: seq<nat>, s: seq<BlockIndex>)
    requires forall x :: x in s ==> x < |blockSize|
    ensures SumSizes(blockSize + more, s) == SumSizes(blockSize, s)
  {
    if s != [] {
      assert s[0] in s;
      assert forall x :: x in s[1..] ==> x in s;
      SumSizesExtend(blockSize, more, s[1..]);
    }
  }

  lemma {:induction false} SumFreeExtend(blockSize: seq<nat>, more: seq<nat>, free: seq<seq<BlockIndex>>)
    requires forall k, x {:trigger x in free[k]} :: 0 <= k < |free| && x in free[k] ==> x < |blockSize|
    ensures SumFree(blockSize + more, free) == SumFree(blockSize, free)
  {
    if free != [] {
      SumSizesExtend(blockSize, more, free[0]);
      assert forall k :: 0 <= k < |free| - 1 ==> free[1..][k] == free[k + 1];
      SumFreeExtend(blockSize, more, free[1..]);
    }
  }

  /** Twelve empty free lists hold nothing. */
  lemma {:induction false} SumFreeEmpty(blockSize: seq<nat>, free: seq<seq<BlockIndex>>)
    requires forall k :: 0 <= k < |free| ==> free[k] == []
    ensures SumFree(blockSize, free) == 0
  {
    if free != [] {
      assert forall k :: 0 <= k < |free| - 1 ==> free[1..][k] == free[k + 1];
      SumFreeEmpty(blockSize, free[1..]);
    }
  }

  /** Replacing one free list changes the free total by the difference of the two lists. */
  lemma {:induction false} SumFreeUpdate(blockSize: seq<nat>, free: seq<seq<BlockIndex>>, k: nat, s: seq<BlockIndex>)
    requires k < |free|
    ensures SumFree(blockSize, free[k := s]) + SumSizes(blockSize, free[k]) == SumFree(blockSize, free) + SumSizes(blockSize, s)
  {
    if k > 0 {
      assert free[k := s][1..] == free[1..][k - 1 := s];
      SumFreeUpdate(blockSize, free[1..], k - 1, s);
    } else {
      assert free[k := s][1..] == free[1..];
    }
  }

  /** A carved row puts `n` items of class `c` on its free list. */
  lemma {:induction false} SumSizesCountdown(blockSize: seq<nat>, start: BlockIndex, n: nat, c: nat)
    requires forall i :: start <= i < start + n ==> SizeOf(blockSize, i) == c
    ensures SumSizes(blockSize, Countdown(start, n)) == n * c
  {
    if n > 0 {
      assert Countdown(start, n)[1..] == Countdown(start, n - 1);
      SumSizesCountdown(blockSize, start, n - 1, c);
    }
  }

  /** The carved rows never provide more blocks than the rows are wide. */
  lemma {:induction false} RowsCapacityBound(rows: seq<Row>)
    requires forall v :: 0 <= v < |rows| ==> rows[v].blockCountPerItem in SizeClasses()
    ensures RowsCapacity(rows) <= |rows| * MAX_VERTEX_TEXTURE_WIDTH
  {
    if rows != [] {
      RowsCapacityBound(rows[..|rows| - 1]);
    }
  }

  // ---------------------------------------------------------------------------
  // Eviction, as a function of the occupied list before the pass

  /** The blocks of `s` that stay occupied, in their order on `s`. */
  ghost function Survivors(blocks: seq<Block>, s: seq<BlockIndex>, frameId: nat): seq<BlockIndex>
  {
    if s == [] then []
    else
      var x := s[|s| - 1];
      Survivors(blocks, s[..|s| - 1], frameId) + (if x < |blocks| && IsStale(blocks[x], frameId) then [] else [x])
  }

  /** The blocks of `s` that are evicted, in their order on `s`. */
  ghost function Evicted(blocks: seq<Block>, s: seq<BlockIndex>, frameId: nat): seq<BlockIndex>
  {
    if s == [] then []
    else
      var x := s[|s| - 1];
      Evicted(blocks, s[..|s| - 1], frameId) + (if x < |blocks| && IsStale(blocks[x], frameId) then [x] else [])
  }

  /**
   * The evicted blocks of class `c`, as the pass pushes them on the front
   * of that class's free list: the last one evicted comes first.
   */
  ghost function Released(blocks: seq<Block>, blockSize: seq<nat>, s: seq<BlockIndex>, frameId: nat, c: nat): seq<BlockIndex>
  {
    if s == [] then []
    else
      var x := s[|s| - 1];
      (if x < |blocks| && IsStale(blocks[x], frameId) && SizeOf(blockSize, x) == c then [x] else [])
        + Released(blocks, blockSize, s[..|s| - 1], frameId, c)
  }

  /** A block survives the pass iff it was on the list and is not stale. */
  lemma {:induction false} SurvivorsMember(blocks: seq<Block>, s: seq<BlockIndex>, frameId: nat, x: BlockIndex)
    requires forall y :: y in s ==> y < |blocks|
    ensures x in Survivors(blocks, s, frameId) <==> x in s && !IsStale(blocks[x], frameId)
  {
    if s != [] {
      var init := s[..|s| - 1];
      assert s == init + [s[|s| - 1]];
      assert forall y :: y in init ==> y in s;
      SurvivorsMember(blocks, init, frameId, x);
    }
  }

  /** A block is evicted by the pass iff it was on the list and is stale. */
  lemma {:induction false} EvictedMember(blocks: seq<Block>, s: seq<BlockIndex>, frameId: nat, x: BlockIndex)
    requires forall y :: y in s ==> y < |blocks|
    ensures x in Evicted(blocks, s, frameId) <==> x in s && IsStale(blocks[x], frameId)
  {
    if s != [] {
      var init := s[..|s| - 1];
      assert s == init + [s[|s| - 1]];
      assert forall y :: y in init ==> y in s;
      EvictedMember(blocks, init, frameId, x);
    }
  }

  /** An evicted block goes back to the free list of its own class. */
  lemma {:induction false} ReleasedMember(blocks: seq<Block>, blockSize: seq<nat>, s: seq<BlockIndex>, frameId: nat, c: nat, x: BlockIndex)
    ensures x in Released(blocks, blockSize, s, frameId, c) <==> x in Evicted(blocks, s, frameId) && SizeOf(blockSize, x) == c
  {
    if s != [] {
      ReleasedMember(blocks, blockSize, s[..|s| - 1], frameId, c, x);
    }
  }

  /** The pass filters each part of the list on its own: relative order is kept. */
  lemma {:induction false} SurvivorsAppend(blocks: seq<Block>, a: seq<BlockIndex>, b: seq<BlockIndex>, frameId: nat)
    ensures Survivors(blocks, a + b, frameId) == Survivors(blocks, a, frameId) + Survivors(blocks, b, frameId)
  {
    if b != [] {
      assert (a + b)[..|a + b| - 1] == a + b[..|b| - 1];
      SurvivorsAppend(blocks, a, b[..|b| - 1], frameId);
    } else {
      assert a + b == a;
    }
  }

  /** The survivors and the evicted blocks split the total size of the list. */
  lemma {:induction false} SumSizesSplit(blockSize: seq<nat>, blocks: seq<Block>, s: seq<BlockIndex>, frameId: nat)
    ensures SumSizes(blockSize, s) == SumSizes(blockSize, Survivors(blocks, s, frameId)) + SumSizes(blockSize, Evicted(blocks, s, frameId))
  {
    if s != [] {
      var init := s[..|s| - 1];
      var x := s[|s| - 1];
      assert s == init + [x];
      SumSizesSplit(blockSize, blocks, init, frameId);
      SumSizesAppend(blockSize, init, [x]);
      var kept := if x < |blocks| && IsStale(blocks[x], frameId) then [] else [x];
      var gone := if x < |blocks| && IsStale(blocks[x], frameId) then [x] else [];
      SumSizesAppend(blockSize, Survivors(blocks, init, frameId), kept);
      SumSizesAppend(blockSize, Evicted(blocks, init, frameId), gone);
      assert SumSizes(blockSize, [x]) == SizeOf(blockSize, x);
      assert SumSizes(blockSize, kept) + SumSizes(blockSize, gone) == SizeOf(blockSize, x);
    }
  }
}
