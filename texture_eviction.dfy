/**
 * The eviction pass of the cache texture (`evict_old_blocks`) as a
 * function of the state before it: walking the occupied list from its
 * head, every stale block is released in turn. The lemmas state what the
 * whole pass does in terms of the list it started from.
 */
module TextureEviction {
  import opened Wrappers
  import opened FreeBlockLists
  import opened BlockArena
  import opened TextureModel

  /**
   * The state once the pass has visited the first `i` blocks of the
   * occupied list of `t0`. A visited stale block sits right after the
   * survivors kept so far, and is released from there.
   */
  ghost function EvictPrefix(t0: TextureState, frameId: nat, i: nat): TextureState
    requires i <= |t0.occupied|
    decreases i
  {
    if i == 0 then t0
    else
      var t := EvictPrefix(t0, frameId, i - 1);
      var x := t0.occupied[i - 1];
      var pos := |Survivors(t0.blocks, t0.occupied[..i - 1], frameId)|;
      if x < |t0.blocks| && IsStale(t0.blocks[x], frameId)
         && Releasable(t, pos)
      then Release(t, pos)
      else t
  }

  /** The whole pass. */
  ghost function Evict(t0: TextureState, frameId: nat): TextureState
  {
    EvictPrefix(t0, frameId, |t0.occupied|)
  }

  // ---------------------------------------------------------------------------
  // Sequence facts, kept apart from the texture invariant

  lemma Slices(s: seq<BlockIndex>, i: nat)
    requires 0 < i <= |s|
    ensures s[..i] == s[..i - 1] + [s[i - 1]] && s[i - 1..] == [s[i - 1]] + s[i..]
  {
  }

  lemma SplitAt(a: seq<BlockIndex>, x: BlockIndex, b: seq<BlockIndex>)
    ensures |a + ([x] + b)| > |a|
    ensures (a + ([x] + b))[..|a|] == a && (a + ([x] + b))[|a|] == x && (a + ([x] + b))[|a| + 1..] == b
  {
  }

  lemma Assoc(a: seq<BlockIndex>, b: seq<BlockIndex>, c: seq<BlockIndex>)
    ensures a + (b + c) == (a + b) + c
  {
  }

  /** Extending the visited prefix by one block extends each of the pass's lists by at most that block. */
  lemma PrefixSnoc(blocks: seq<Block>, blockSize: seq<nat>, s: seq<BlockIndex>, i: nat, frameId: nat)
    requires i < |s|
    ensures s[i] < |blocks| && IsStale(blocks[s[i]], frameId) ==>
      && Survivors(blocks, s[..i + 1], frameId) == Survivors(blocks, s[..i], frameId)
      && Evicted(blocks, s[..i + 1], frameId) == Evicted(blocks, s[..i], frameId) + [s[i]]
    ensures !(s[i] < |blocks| && IsStale(blocks[s[i]], frameId)) ==>
      && Survivors(blocks, s[..i + 1], frameId) == Survivors(blocks, s[..i], frameId) + [s[i]]
      && Evicted(blocks, s[..i + 1], frameId) == Evicted(blocks, s[..i], frameId)
    ensures forall c :: (Released(blocks, blockSize, s[..i + 1], frameId, c) ==
      (if s[i] < |blocks| && IsStale(blocks[s[i]], frameId) && SizeOf(blockSize, s[i]) == c then [s[i]] else [])
        + Released(blocks, blockSize, s[..i], frameId, c))
  {
    assert s[..i + 1][..i] == s[..i];
    assert Survivors(blocks, s[..i], frameId) + [] == Survivors(blocks, s[..i], frameId);
    assert Evicted(blocks, s[..i], frameId) + [] == Evicted(blocks, s[..i], frameId);
  }

  /** Before the pass has visited anything, nothing has happened. */
  lemma PrefixEmpty(t0: TextureState, frameId: nat)
    ensures EvictPrefix(t0, frameId, 0) == t0
    ensures t0.occupied[..0] == [] && t0.occupied[0..] == t0.occupied
    ensures Survivors(t0.blocks, t0.occupied[..0], frameId) + t0.occupied[0..] == t0.occupied
    ensures Evicted(t0.blocks, t0.occupied[..0], frameId) == []
    ensures forall c :: Released(t0.blocks, t0.blockSize, t0.occupied[..0], frameId, c) == []
  {
    assert t0.occupied[..0] == [];
  }

  /** Only blocks of the list can be evicted from it. */
  lemma {:induction false} EvictedIn(blocks: seq<Block>, s: seq<BlockIndex>, frameId: nat, x: BlockIndex)
    ensures x in Evicted(blocks, s, frameId) ==> x in s
  {
    if s != [] {
      EvictedIn(blocks, s[..|s| - 1], frameId, x);
      assert s == s[..|s| - 1] + [s[|s| - 1]];
    }
  }

  /** A block that occurs once is not among the blocks before it. */
  lemma NotBefore(s: seq<BlockIndex>, i: nat)
    requires Distinct(s) && i < |s|
    ensures s[i] !in s[..i]
  {
  }

  lemma SumSizesSnoc(blockSize: seq<nat>, s: seq<BlockIndex>, x: BlockIndex)
    ensures SumSizes(blockSize, s + [x]) == SumSizes(blockSize, s) + SizeOf(blockSize, x)
  {
    SumSizesAppend(blockSize, s, [x]);
    assert [x][1..] == [];
  }

  // ---------------------------------------------------------------------------
  // One step of the pass

  /** Visiting block `i - 1`: release it when it is stale, keep it otherwise. */
  lemma Unfold(t0: TextureState, frameId: nat, i: nat)
    requires 0 < i <= |t0.occupied| && EvictPrefix(t0, frameId, i - 1).Valid()
    requires |Survivors(t0.blocks, t0.occupied[..i - 1], frameId)| < |EvictPrefix(t0, frameId, i - 1).occupied|
    ensures var x := t0.occupied[i - 1];
      EvictPrefix(t0, frameId, i) ==
        if x < |t0.blocks| && IsStale(t0.blocks[x], frameId)
        then Release(EvictPrefix(t0, frameId, i - 1), |Survivors(t0.blocks, t0.occupied[..i - 1], frameId)|)
        else EvictPrefix(t0, frameId, i - 1)
  {
  }

  /** Releasing the block after the survivors `s` keeps the invariant and drops it from the list. */
  lemma ReleaseAfter(t: TextureState, s: seq<BlockIndex>, x: BlockIndex, rest: seq<BlockIndex>)
    requires t.Valid() && t.occupied == s + ([x] + rest)
    ensures Release(t, |s|).Valid() && Release(t, |s|).occupied == s + rest
  {
    SplitAt(s, x, rest);
    ReleaseValid(t, |s|);
  }

  lemma StepValid(t0: TextureState, frameId: nat, i: nat)
    requires 0 < i <= |t0.occupied|
    requires EvictPrefix(t0, frameId, i - 1).Valid()
    requires EvictPrefix(t0, frameId, i - 1).occupied
      == Survivors(t0.blocks, t0.occupied[..i - 1], frameId) + t0.occupied[i - 1..]
    ensures EvictPrefix(t0, frameId, i).Valid()
    ensures EvictPrefix(t0, frameId, i).occupied
      == Survivors(t0.blocks, t0.occupied[..i], frameId) + t0.occupied[i..]
  {
    var t := EvictPrefix(t0, frameId, i - 1);
    var x := t0.occupied[i - 1];
    var s := Survivors(t0.blocks, t0.occupied[..i - 1], frameId);
    var rest := t0.occupied[i..];
    PrefixSnoc(t0.blocks, t0.blockSize, t0.occupied, i - 1, frameId);
    Slices(t0.occupied, i);
    assert t.occupied == s + ([x] + rest);
    SplitAt(s, x, rest);
    Unfold(t0, frameId, i);
    if x < |t0.blocks| && IsStale(t0.blocks[x], frameId) {
      ReleaseAfter(t, s, x, rest);
    } else {
      Assoc(s, [x], rest);
    }
  }

  /**
   * Part way through the pass the state is valid, and the occupied list is
   * the survivors so far followed by the blocks not yet visited.
   */
  lemma {:induction false} EvictPrefixValid(t0: TextureState, frameId: nat, i: nat)
    requires t0.Valid() && i <= |t0.occupied|
    ensures EvictPrefix(t0, frameId, i).Valid()
    ensures EvictPrefix(t0, frameId, i).occupied
      == Survivors(t0.blocks, t0.occupied[..i], frameId) + t0.occupied[i..]
  {
    if i == 0 {
      PrefixEmpty(t0, frameId);
    } else {
      EvictPrefixValid(t0, frameId, i - 1);
      StepValid(t0, frameId, i);
    }
  }

  /** Where the pass stands before visiting block `i`: that block follows the survivors. */
  lemma Visiting(t0: TextureState, frameId: nat, i: nat)
    requires t0.Valid() && i < |t0.occupied|
    ensures var t := EvictPrefix(t0, frameId, i);
      var s := Survivors(t0.blocks, t0.occupied[..i], frameId);
      && t.Valid()
      && |s| < |t.occupied| && t.occupied[|s|] == t0.occupied[i]
      && t.occupied[..|s|] == s
      && t.occupied[|s| + 1..] == t0.occupied[i + 1..]
  {
    EvictPrefixValid(t0, frameId, i);
    var s := Survivors(t0.blocks, t0.occupied[..i], frameId);
    Slices(t0.occupied, i + 1);
    SplitAt(s, t0.occupied[i], t0.occupied[i + 1..]);
  }

  // ---------------------------------------------------------------------------
  // What the pass leaves unchanged, and what it does to each block

  /** Releasing changes the free list of the block's class and no other. */
  lemma ReleaseFree(t: TextureState, pos: nat)
    requires t.ArenaShape() && t.ListsLinked() && t.Accounting() && pos < |t.occupied|
    ensures var x := t.occupied[pos];
      forall k :: 0 <= k < NUM_BUCKETS ==>
        Release(t, pos).free[k] == if t.blockSize[x] == SizeClasses()[k] then [x] + t.free[k] else t.free[k]
  {
    SizeClassesIncreasing();
  }

  /** Stamps, addresses and epochs relative to `b0`, after one more block `x` may have been evicted. */
  lemma StampsStep(b0: seq<Block>, b: seq<Block>, b': seq<Block>, e: seq<BlockIndex>, x: nat, stale: bool)
    requires |b| == |b0| && |b'| == |b0|
    requires forall y :: 0 <= y < |b0| ==>
      b[y].lastAccessTime == b0[y].lastAccessTime && b[y].address == b0[y].address
      && b[y].epoch == b0[y].epoch + (if y in e then 1 else 0)
    requires stale ==> x !in e && forall y :: 0 <= y < |b0| ==>
      b'[y].lastAccessTime == b[y].lastAccessTime && b'[y].address == b[y].address
      && b'[y].epoch == if y == x then b[y].epoch + 1 else b[y].epoch
    requires !stale ==> b' == b
    ensures forall y :: 0 <= y < |b0| ==>
      b'[y].lastAccessTime == b0[y].lastAccessTime && b'[y].address == b0[y].address
      && b'[y].epoch == b0[y].epoch + (if y in (if stale then e + [x] else e) then 1 else 0)
  {
  }

  /** The stamps and epochs before visiting block `i`, relative to the state the pass started from. */
  ghost predicate StampsSoFar(t0: TextureState, frameId: nat, i: nat)
    requires i <= |t0.occupied|
  {
    var t := EvictPrefix(t0, frameId, i);
    && |t.blocks| == |t0.blocks|
    && (forall y :: 0 <= y < |t0.blocks| ==>
          t.blocks[y].lastAccessTime == t0.blocks[y].lastAccessTime && t.blocks[y].address == t0.blocks[y].address
          && t.blocks[y].epoch == t0.blocks[y].epoch + (if y in Evicted(t0.blocks, t0.occupied[..i], frameId) then 1 else 0))
  }

  /** Releasing the stale block `i - 1` advances its epoch and changes no stamp or address. */
  lemma StaleRelease(t0: TextureState, frameId: nat, i: nat)
    requires t0.Valid() && 0 < i <= |t0.occupied|
    requires t0.occupied[i - 1] < |t0.blocks| && IsStale(t0.blocks[t0.occupied[i - 1]], frameId)
    ensures var t := EvictPrefix(t0, frameId, i - 1); var t' := EvictPrefix(t0, frameId, i);
      && |t'.blocks| == |t.blocks|
      && forall y :: 0 <= y < |t.blocks| ==>
           && t'.blocks[y].lastAccessTime == t.blocks[y].lastAccessTime && t'.blocks[y].address == t.blocks[y].address
           && t'.blocks[y].epoch == if y == t0.occupied[i - 1] then t.blocks[y].epoch + 1 else t.blocks[y].epoch
  {
    Visiting(t0, frameId, i - 1);
    Unfold(t0, frameId, i);
    ReleaseStamps(EvictPrefix(t0, frameId, i - 1), |Survivors(t0.blocks, t0.occupied[..i - 1], frameId)|);
  }

  /** Visiting a stale block advances its epoch and changes no stamp or address. */
  lemma StepStampsStale(t0: TextureState, frameId: nat, i: nat)
    requires t0.Valid() && 0 < i <= |t0.occupied| && StampsSoFar(t0, frameId, i - 1)
    requires t0.occupied[i - 1] < |t0.blocks| && IsStale(t0.blocks[t0.occupied[i - 1]], frameId)
    ensures StampsSoFar(t0, frameId, i)
  {
    var x := t0.occupied[i - 1];
    var done := t0.occupied[..i - 1];
    StaleRelease(t0, frameId, i);
    PrefixSnoc(t0.blocks, t0.blockSize, t0.occupied, i - 1, frameId);
    // The pass meets each block once.
    NotBefore(t0.occupied, i - 1);
    EvictedIn(t0.blocks, done, frameId, x);
    StampsStep(t0.blocks, EvictPrefix(t0, frameId, i - 1).blocks, EvictPrefix(t0, frameId, i).blocks,
               Evicted(t0.blocks, done, frameId), x, true);
  }

  /** Visiting a block that is not stale changes nothing. */
  lemma StepStampsKept(t0: TextureState, frameId: nat, i: nat)
    requires t0.Valid() && 0 < i <= |t0.occupied| && StampsSoFar(t0, frameId, i - 1)
    requires !(t0.occupied[i - 1] < |t0.blocks| && IsStale(t0.blocks[t0.occupied[i - 1]], frameId))
    ensures StampsSoFar(t0, frameId, i)
  {
    var done := t0.occupied[..i - 1];
    Visiting(t0, frameId, i - 1);
    var t := EvictPrefix(t0, frameId, i - 1);
    PrefixSnoc(t0.blocks, t0.blockSize, t0.occupied, i - 1, frameId);
    Unfold(t0, frameId, i);
    StampsStep(t0.blocks, t.blocks, t.blocks, Evicted(t0.blocks, done, frameId), t0.occupied[i - 1], false);
  }

  /** Visiting block `i - 1` takes its size off the allocated count when it is evicted, and changes nothing else. */
  lemma StepCounts(t0: TextureState, frameId: nat, i: nat)
    requires t0.Valid() && 0 < i <= |t0.occupied|
    requires var t := EvictPrefix(t0, frameId, i - 1);
      && t.blockSize == t0.blockSize && t.rows == t0.rows && t.height == t0.height && t.baseEpoch == t0.baseEpoch
      && t.pendingBlocks == t0.pendingBlocks && t.updates == t0.updates && t.issued == t0.issued
      && t.allocatedBlockCount + SumSizes(t0.blockSize, Evicted(t0.blocks, t0.occupied[..i - 1], frameId)) == t0.allocatedBlockCount
    ensures var t := EvictPrefix(t0, frameId, i);
      && t.blockSize == t0.blockSize && t.rows == t0.rows && t.height == t0.height && t.baseEpoch == t0.baseEpoch
      && t.pendingBlocks == t0.pendingBlocks && t.updates == t0.updates && t.issued == t0.issued
      && t.allocatedBlockCount + SumSizes(t0.blockSize, Evicted(t0.blocks, t0.occupied[..i], frameId)) == t0.allocatedBlockCount
  {
    var x := t0.occupied[i - 1];
    var done := t0.occupied[..i - 1];
    Visiting(t0, frameId, i - 1);
    PrefixSnoc(t0.blocks, t0.blockSize, t0.occupied, i - 1, frameId);
    Unfold(t0, frameId, i);
    if x < |t0.blocks| && IsStale(t0.blocks[x], frameId) {
      ReleaseFields(EvictPrefix(t0, frameId, i - 1), |Survivors(t0.blocks, done, frameId)|);
      SumSizesSnoc(t0.blockSize, Evicted(t0.blocks, done, frameId), x);
    }
  }

  /**
   * Part way through the pass no stamp, address, size class, row or queued
   * upload has changed; exactly the evicted blocks have advanced their
   * epoch, by one; and the allocated count has fallen by their sizes.
   */
  lemma {:induction false} EvictPrefixKeeps(t0: TextureState, frameId: nat, i: nat)
    requires t0.Valid() && i <= |t0.occupied|
    ensures StampsSoFar(t0, frameId, i)
    ensures var t := EvictPrefix(t0, frameId, i);
      && t.blockSize == t0.blockSize && t.rows == t0.rows && t.height == t0.height && t.baseEpoch == t0.baseEpoch
      && t.pendingBlocks == t0.pendingBlocks && t.updates == t0.updates && t.issued == t0.issued
      && t.allocatedBlockCount + SumSizes(t0.blockSize, Evicted(t0.blocks, t0.occupied[..i], frameId)) == t0.allocatedBlockCount
  {
    if i == 0 {
      PrefixEmpty(t0, frameId);
    } else {
      EvictPrefixKeeps(t0, frameId, i - 1);
      var x := t0.occupied[i - 1];
      if x < |t0.blocks| && IsStale(t0.blocks[x], frameId) {
        StepStampsStale(t0, frameId, i);
      } else {
        StepStampsKept(t0, frameId, i);
      }
      StepCounts(t0, frameId, i);
    }
  }

  /** The free lists before visiting block `i`: the blocks released so far, in front of the lists the pass started from. */
  ghost predicate FreeSoFar(t0: TextureState, frameId: nat, i: nat)
    requires i <= |t0.occupied|
  {
    var t := EvictPrefix(t0, frameId, i);
    && |t.free| == NUM_BUCKETS && |t0.free| == NUM_BUCKETS
    && forall k :: 0 <= k < NUM_BUCKETS ==>
         t.free[k] == Released(t0.blocks, t0.blockSize, t0.occupied[..i], frameId, SizeClasses()[k]) + t0.free[k]
  }

  /** Releasing the stale block `i - 1` puts it in front of the free list of its class. */
  lemma StaleFree(t0: TextureState, frameId: nat, i: nat)
    requires t0.Valid() && 0 < i <= |t0.occupied|
    requires t0.occupied[i - 1] < |t0.blocks| && IsStale(t0.blocks[t0.occupied[i - 1]], frameId)
    ensures var t := EvictPrefix(t0, frameId, i - 1); var t' := EvictPrefix(t0, frameId, i);
      var x := t0.occupied[i - 1];
      && |t'.free| == NUM_BUCKETS && x < |t.blockSize|
      && forall k :: 0 <= k < NUM_BUCKETS ==>
           t'.free[k] == if t.blockSize[x] == SizeClasses()[k] then [x] + t.free[k] else t.free[k]
  {
    Visiting(t0, frameId, i - 1);
    Unfold(t0, frameId, i);
    ReleaseFree(EvictPrefix(t0, frameId, i - 1), |Survivors(t0.blocks, t0.occupied[..i - 1], frameId)|);
  }

  /** Visiting a block that is not stale leaves the state as it was. */
  lemma KeptUnchanged(t0: TextureState, frameId: nat, i: nat)
    requires 0 < i <= |t0.occupied|
    requires !(t0.occupied[i - 1] < |t0.blocks| && IsStale(t0.blocks[t0.occupied[i - 1]], frameId))
    ensures EvictPrefix(t0, frameId, i) == EvictPrefix(t0, frameId, i - 1)
  {
  }

  lemma StepFree(t0: TextureState, frameId: nat, i: nat)
    requires t0.Valid() && 0 < i <= |t0.occupied| && FreeSoFar(t0, frameId, i - 1)
    requires EvictPrefix(t0, frameId, i - 1).blockSize == t0.blockSize
    ensures FreeSoFar(t0, frameId, i)
  {
    var x := t0.occupied[i - 1];
    var stale := x < |t0.blocks| && IsStale(t0.blocks[x], frameId);
    PrefixSnoc(t0.blocks, t0.blockSize, t0.occupied, i - 1, frameId);
    if stale {
      StaleFree(t0, frameId, i);
    } else {
      KeptUnchanged(t0, frameId, i);
    }
    forall k | 0 <= k < NUM_BUCKETS
      ensures EvictPrefix(t0, frameId, i).free[k]
        == Released(t0.blocks, t0.blockSize, t0.occupied[..i], frameId, SizeClasses()[k]) + t0.free[k]
    {
      var r := Released(t0.blocks, t0.blockSize, t0.occupied[..i - 1], frameId, SizeClasses()[k]);
      var hit := if stale && SizeOf(t0.blockSize, x) == SizeClasses()[k] then [x] else [];
      Assoc(hit, r, t0.free[k]);
      assert [] + (r + t0.free[k]) == r + t0.free[k];
    }
  }

  lemma SizesKept(t0: TextureState, frameId: nat, i: nat)
    requires t0.Valid() && i <= |t0.occupied|
    ensures EvictPrefix(t0, frameId, i).blockSize == t0.blockSize
  {
    EvictPrefixKeeps(t0, frameId, i);
  }

  lemma FreeEmpty(t0: TextureState, frameId: nat)
    requires t0.Valid()
    ensures FreeSoFar(t0, frameId, 0)
  {
    PrefixEmpty(t0, frameId);
    forall k | 0 <= k < NUM_BUCKETS ensures [] + t0.free[k] == t0.free[k] { }
  }

  /**
   * Part way through the pass each evicted block has gone on the front of
   * the free list of its own size class, the last one met first; nothing
   * else was added to or taken from the free lists.
   */
  lemma {:induction false} EvictPrefixFree(t0: TextureState, frameId: nat, i: nat)
    requires t0.Valid() && i <= |t0.occupied|
    ensures FreeSoFar(t0, frameId, i)
  {
    if i == 0 {
      FreeEmpty(t0, frameId);
    } else {
      EvictPrefixFree(t0, frameId, i - 1);
      SizesKept(t0, frameId, i - 1);
      StepFree(t0, frameId, i);
    }
  }

  // ---------------------------------------------------------------------------
  // What the eviction loop sees at each step

  /** The block visited at step `i` links to the next one of the original list. */
  lemma NextVisited(t0: TextureState, frameId: nat, i: nat)
    requires t0.Valid() && i < |t0.occupied|
    ensures var t := EvictPrefix(t0, frameId, i);
      && t0.occupied[i] < |t.blocks|
      && t.blocks[t0.occupied[i]].next == if i + 1 < |t0.occupied| then Some(t0.occupied[i + 1]) else None
  {
    Visiting(t0, frameId, i);
    var t := EvictPrefix(t0, frameId, i);
    var s := Survivors(t0.blocks, t0.occupied[..i], frameId);
    var p := |s|;
    assert t.blocks[t.occupied[p]].next == if p + 1 < |t.occupied| then Some(t.occupied[p + 1]) else None;
    assert |t.occupied[p + 1..]| == |t0.occupied[i + 1..]|;
    if i + 1 < |t0.occupied| {
      assert t.occupied[p + 1..][0] == t0.occupied[i + 1..][0];
    }
  }

  /** The block before the visited one on the current list is the last survivor so far. */
  lemma PrevVisited(t0: TextureState, frameId: nat, i: nat)
    requires t0.Valid() && i < |t0.occupied|
    ensures var t := EvictPrefix(t0, frameId, i);
      var s := Survivors(t0.blocks, t0.occupied[..i], frameId);
      && |s| < |t.occupied| && t.occupied[|s|] == t0.occupied[i]
      && (s != [] ==> t.occupied[|s| - 1] == s[|s| - 1])
  {
    Visiting(t0, frameId, i);
    var t := EvictPrefix(t0, frameId, i);
    var s := Survivors(t0.blocks, t0.occupied[..i], frameId);
    if s != [] {
      assert t.occupied[..|s|][|s| - 1] == s[|s| - 1];
    }
  }

  /** The current state decides staleness as the state before the pass did. */
  lemma StaleVisited(t0: TextureState, frameId: nat, i: nat)
    requires t0.Valid() && i < |t0.occupied|
    ensures var t := EvictPrefix(t0, frameId, i); var x := t0.occupied[i];
      && x < |t0.blocks| && x < |t.blocks|
      && t.blocks[x].lastAccessTime == t0.blocks[x].lastAccessTime
      && t.blocks[x].address == t0.blocks[x].address
  {
    EvictPrefixKeeps(t0, frameId, i);
    IsListBounded(t0.blocks, t0.occupiedListHead, t0.occupied);
    assert t0.occupied[i] in t0.occupied;
  }

  /** Visiting a stale block: the state is the release of the block after the survivors. */
  lemma StepStale(t0: TextureState, frameId: nat, i: nat)
    requires t0.Valid() && i < |t0.occupied|
    requires t0.occupied[i] < |t0.blocks| && IsStale(t0.blocks[t0.occupied[i]], frameId)
    ensures var t := EvictPrefix(t0, frameId, i); var s := Survivors(t0.blocks, t0.occupied[..i], frameId);
      && t.Valid() && |s| < |t.occupied|
      && EvictPrefix(t0, frameId, i + 1) == Release(t, |s|)
      && Survivors(t0.blocks, t0.occupied[..i + 1], frameId) == s
      && Evicted(t0.blocks, t0.occupied[..i + 1], frameId)
         == Evicted(t0.blocks, t0.occupied[..i], frameId) + [t0.occupied[i]]
  {
    Visiting(t0, frameId, i);
    Unfold(t0, frameId, i + 1);
    PrefixSnoc(t0.blocks, t0.blockSize, t0.occupied, i, frameId);
  }

  /** Visiting a block that is not stale: the state stays, the block joins the survivors. */
  lemma StepKept(t0: TextureState, frameId: nat, i: nat)
    requires i < |t0.occupied|
    requires !(t0.occupied[i] < |t0.blocks| && IsStale(t0.blocks[t0.occupied[i]], frameId))
    ensures EvictPrefix(t0, frameId, i + 1) == EvictPrefix(t0, frameId, i)
    ensures Survivors(t0.blocks, t0.occupied[..i + 1], frameId)
      == Survivors(t0.blocks, t0.occupied[..i], frameId) + [t0.occupied[i]]
    ensures Evicted(t0.blocks, t0.occupied[..i + 1], frameId) == Evicted(t0.blocks, t0.occupied[..i], frameId)
  {
    KeptUnchanged(t0, frameId, i + 1);
    PrefixSnoc(t0.blocks, t0.blockSize, t0.occupied, i, frameId);
  }

  /** The last element of `s`, if any. */
  function LastOf(s: seq<BlockIndex>): Option<BlockIndex>
  {
    if s == [] then None else Some(s[|s| - 1])
  }

  /**
   * What the eviction loop reads at step `i`, on the state it has reached:
   * the visited block still has the stamp, address and link it had when
   * the pass started.
   */
  lemma VisitBlock(t0: TextureState, frameId: nat, i: nat)
    requires t0.Valid() && i < |t0.occupied|
    ensures var t := EvictPrefix(t0, frameId, i); var x := t0.occupied[i];
      && x < |t0.blocks| && x < |t.blocks|
      && t.blocks[x].lastAccessTime == t0.blocks[x].lastAccessTime
      && t.blocks[x].address == t0.blocks[x].address
      && t.blocks[x].next == (if i + 1 < |t0.occupied| then Some(t0.occupied[i + 1]) else None)
  {
    NextVisited(t0, frameId, i);
    StaleVisited(t0, frameId, i);
  }

  /** A stale block at step `i` is unlinked through the last survivor. */
  lemma VisitStale(t0: TextureState, frameId: nat, i: nat)
    requires t0.Valid() && i < |t0.occupied|
    requires t0.occupied[i] < |t0.blocks| && IsStale(t0.blocks[t0.occupied[i]], frameId)
    ensures var t := EvictPrefix(t0, frameId, i); var x := t0.occupied[i];
      var s := Survivors(t0.blocks, t0.occupied[..i], frameId);
      && CanUnlink(t, |s|, x, LastOf(s))
      && EvictPrefix(t0, frameId, i + 1) == Unlink(t, |s|, x, LastOf(s))
  {
    var t := EvictPrefix(t0, frameId, i);
    var s := Survivors(t0.blocks, t0.occupied[..i], frameId);
    PrevVisited(t0, frameId, i);
    StepStale(t0, frameId, i);
    ReleaseUnlinks(t, |s|);
  }

  // ---------------------------------------------------------------------------
  // The whole pass

  lemma Whole(s: seq<BlockIndex>, a: seq<BlockIndex>)
    ensures s[..|s|] == s && a + s[|s|..] == a
  {
    assert s[|s|..] == [];
  }

  /**
   * `evict_old_blocks` keeps the invariant, and the occupied list
   * afterwards is the list before with the stale blocks taken out, in the
   * same order.
   */
  lemma EvictValid(t0: TextureState, frameId: nat)
    requires t0.Valid()
    ensures Evict(t0, frameId).Valid()
    ensures Evict(t0, frameId).occupied == Survivors(t0.blocks, t0.occupied, frameId)
  {
    EvictPrefixValid(t0, frameId, |t0.occupied|);
    Whole(t0.occupied, Survivors(t0.blocks, t0.occupied, frameId));
  }

  /**
   * After the pass, every handed-out location that still matches its block
   * designates a block used within the last FRAMES_BEFORE_EVICTION frames.
   */
  lemma EvictKeepsRecent(t0: TextureState, frameId: nat, loc: CacheLocation)
    requires t0.Valid()
    requires loc in Evict(t0, frameId).issued && Matches(Evict(t0, frameId).blocks, loc)
    ensures !IsStale(Evict(t0, frameId).blocks[loc.blockIndex], frameId)
  {
    var t := Evict(t0, frameId);
    var x := loc.blockIndex;
    EvictValid(t0, frameId);
    EvictOccupied(t0, frameId);
    EvictEpochs(t0, frameId);
    assert x in t.occupied;
  }

  /** A block is still occupied after the pass iff it was occupied before and is not stale. */
  lemma EvictOccupied(t0: TextureState, frameId: nat)
    requires t0.Valid()
    ensures forall x :: x in Evict(t0, frameId).occupied ==> x in t0.occupied
    ensures forall x :: x in t0.occupied ==>
      x < |t0.blocks| && (x in Evict(t0, frameId).occupied <==> !IsStale(t0.blocks[x], frameId))
  {
    EvictValid(t0, frameId);
    IsListBounded(t0.blocks, t0.occupiedListHead, t0.occupied);
    forall x {
      SurvivorsMember(t0.blocks, t0.occupied, frameId, x);
    }
  }

  /**
   * The pass changes no access stamp and no address; the epoch of every
   * evicted block, and only of those, advances by one, so every location
   * handed out for an evicted block no longer matches.
   */
  lemma EvictEpochs(t0: TextureState, frameId: nat)
    requires t0.Valid()
    ensures var t := Evict(t0, frameId);
      && |t.blocks| == |t0.blocks|
      && forall y :: 0 <= y < |t0.blocks| ==>
           && t.blocks[y].lastAccessTime == t0.blocks[y].lastAccessTime
           && t.blocks[y].address == t0.blocks[y].address
           && t.blocks[y].epoch == t0.blocks[y].epoch + (if y in t0.occupied && IsStale(t0.blocks[y], frameId) then 1 else 0)
  {
    var n := |t0.occupied|;
    EvictPrefixKeeps(t0, frameId, n);
    Whole(t0.occupied, []);
    IsListBounded(t0.blocks, t0.occupiedListHead, t0.occupied);
    forall y {
      EvictedMember(t0.blocks, t0.occupied, frameId, y);
    }
  }

  /**
   * Every evicted block goes on the front of the free list of its own size
   * class, the last one met first.
   */
  lemma EvictFree(t0: TextureState, frameId: nat)
    requires t0.Valid()
    ensures var t := Evict(t0, frameId);
      && |t.free| == NUM_BUCKETS
      && forall k :: 0 <= k < NUM_BUCKETS ==>
           t.free[k] == Released(t0.blocks, t0.blockSize, t0.occupied, frameId, SizeClasses()[k]) + t0.free[k]
  {
    EvictPrefixFree(t0, frameId, |t0.occupied|);
    Whole(t0.occupied, []);
  }

  /** Membership in lists made of released blocks in front of older lists. */
  lemma ReleasedInFront(blocks: seq<Block>, blockSize: seq<nat>, s: seq<BlockIndex>, frameId: nat,
                        free0: seq<seq<BlockIndex>>, free: seq<seq<BlockIndex>>)
    requires |free0| == NUM_BUCKETS && |free| == NUM_BUCKETS
    requires forall y :: y in s ==> y < |blocks| && y < |blockSize|
    requires forall k :: 0 <= k < NUM_BUCKETS ==> free[k] == Released(blocks, blockSize, s, frameId, SizeClasses()[k]) + free0[k]
    ensures forall k, x: BlockIndex {:trigger x in free[k]} :: 0 <= k < NUM_BUCKETS ==>
      (x in free[k] <==> x in free0[k] || (x in s && IsStale(blocks[x], frameId) && blockSize[x] == SizeClasses()[k]))
  {
    forall k, x: BlockIndex | 0 <= k < NUM_BUCKETS
      ensures x in free[k] <==> x in free0[k] || (x in s && IsStale(blocks[x], frameId) && blockSize[x] == SizeClasses()[k])
    {
      ReleasedMember(blocks, blockSize, s, frameId, SizeClasses()[k], x);
      EvictedMember(blocks, s, frameId, x);
    }
  }

  /** The free lists gain the evicted blocks of their class and nothing else. */
  lemma EvictFreeMembers(t0: TextureState, frameId: nat)
    requires t0.Valid()
    ensures var t := Evict(t0, frameId);
      && |t.free| == NUM_BUCKETS
      && forall k, x: BlockIndex {:trigger x in t.free[k]} :: 0 <= k < NUM_BUCKETS ==>
           (x in t.free[k] <==>
              x in t0.free[k] || (x in t0.occupied && IsStale(t0.blocks[x], frameId) && t0.blockSize[x] == SizeClasses()[k]))
  {
    var free := Evict(t0, frameId).free;
    EvictFree(t0, frameId);
    IsListBounded(t0.blocks, t0.occupiedListHead, t0.occupied);
    assert forall y :: y in t0.occupied ==> y < |t0.blocks| && y < |t0.blockSize|;
    ReleasedInFront(t0.blocks, t0.blockSize, t0.occupied, frameId, t0.free, free);
  }

  /**
   * The allocated count falls by the sizes of the evicted blocks and is
   * then the size of the survivors; rows, height, size classes and the
   * upload queue are untouched.
   */
  lemma EvictCounts(t0: TextureState, frameId: nat)
    requires t0.Valid()
    ensures var t := Evict(t0, frameId);
      && t.allocatedBlockCount + SumSizes(t0.blockSize, Evicted(t0.blocks, t0.occupied, frameId)) == t0.allocatedBlockCount
      && t.allocatedBlockCount == SumSizes(t0.blockSize, Survivors(t0.blocks, t0.occupied, frameId))
      && t.blockSize == t0.blockSize && t.rows == t0.rows && t.height == t0.height && t.baseEpoch == t0.baseEpoch
      && t.pendingBlocks == t0.pendingBlocks && t.updates == t0.updates && t.issued == t0.issued
  {
    EvictPrefixKeeps(t0, frameId, |t0.occupied|);
    Whole(t0.occupied, []);
    SumSizesSplit(t0.blockSize, t0.blocks, t0.occupied, frameId);
  }
}
