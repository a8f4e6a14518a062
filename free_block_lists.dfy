/**
 * Size-class bucketing of the GPU cache (`FreeBlockLists` in gpu_cache.rs).
 * A request for a number of blocks is rounded up to one of twelve size
 * classes; each class owns one intrusive free list. The free lists
 * themselves live in the texture (see CacheTexture); this module only
 * decides which one a request uses.
 */
module FreeBlockLists {
  import opened Wrappers

  /** Width of one cache row, in blocks. */
  const MAX_VERTEX_TEXTURE_WIDTH: nat := 1024

  /** Number of free lists, one per size class. */
  const NUM_BUCKETS: nat := 12

  /**
   * The size class of free list `k`, in increasing order (the last one
   * from `k` = 11 on). 341 is not a
   * divisor of 1024: three 341-block items share one row and its last
   * block stays unused.
   */
  function SizeClass(k: int): (c: nat)
    ensures 1 <= c <= MAX_VERTEX_TEXTURE_WIDTH
  {
    match k
    case 0 => 1
    case 1 => 2
    case 2 => 4
    case 3 => 8
    case 4 => 16
    case 5 => 32
    case 6 => 64
    case 7 => 128
    case 8 => 256
    case 9 => 341
    case 10 => 512
    case _ => 1024
  }

  /** The twelve size classes, `[1, 2, 4, 8, 16, 32, 64, 128, 256, 341, 512, 1024]`. */
  function SizeClasses(): (s: seq<nat>)
    ensures |s| == NUM_BUCKETS && forall k :: 0 <= k < NUM_BUCKETS ==> s[k] == SizeClass(k)
  {
    seq(NUM_BUCKETS, k => SizeClass(k))
  }

  /** The two panics of the bucketing. */
  datatype BucketError = ZeroSizedBlocks | ExceedsRowWidth

  /**
   * The free list (an index into SizeClasses()) that serves a request for
   * `blockCount` blocks. Its size class is the smallest class that holds
   * `blockCount` blocks; zero blocks and more than a row are errors.
   */
  function BucketFor(blockCount: nat): (r: Result<nat, BucketError>)
    ensures r.Ok? <==> 1 <= blockCount <= MAX_VERTEX_TEXTURE_WIDTH
    ensures blockCount == 0 ==> r == Err(ZeroSizedBlocks)
    ensures blockCount > MAX_VERTEX_TEXTURE_WIDTH ==> r == Err(ExceedsRowWidth)
    ensures r.Ok? ==> r.value < NUM_BUCKETS && blockCount <= SizeClasses()[r.value]
    ensures r.Ok? ==> forall j :: 0 <= j < r.value ==> SizeClasses()[j] < blockCount
  {
    if blockCount == 0 then Err(ZeroSizedBlocks)
    else if blockCount == 1 then Ok(0)
    else if blockCount == 2 then Ok(1)
    else if blockCount <= 4 then Ok(2)
    else if blockCount <= 8 then Ok(3)
    else if blockCount <= 16 then Ok(4)
    else if blockCount <= 32 then Ok(5)
    else if blockCount <= 64 then Ok(6)
    else if blockCount <= 128 then Ok(7)
    else if blockCount <= 256 then Ok(8)
    else if blockCount <= 341 then Ok(9)
    else if blockCount <= 512 then Ok(10)
    else if blockCount <= 1024 then Ok(11)
    else Err(ExceedsRowWidth)
  }

  /** The number of blocks a request of `blockCount` blocks actually occupies. */
  function ActualBlockCount(blockCount: nat): (r: Result<nat, BucketError>)
    ensures r.Ok? <==> 1 <= blockCount <= MAX_VERTEX_TEXTURE_WIDTH
    ensures r.Ok? ==> r.value in SizeClasses() && blockCount <= r.value
    ensures r.Ok? ==> forall c :: c in SizeClasses() && blockCount <= c ==> r.value <= c
  {
    match BucketFor(blockCount)
    case Ok(k) => (SizeClassesIncreasing(); Ok(SizeClasses()[k]))
    case Err(e) => Err(e)
  }

  /** The size classes are strictly increasing. */
  lemma SizeClassesIncreasing()
    ensures |SizeClasses()| == NUM_BUCKETS
    ensures forall i, j :: 0 <= i < j < NUM_BUCKETS ==> SizeClasses()[i] < SizeClasses()[j]
  {
  }

  /** A size class is served by its own free list. */
  lemma BucketOfSizeClass(k: nat)
    requires k < NUM_BUCKETS
    ensures BucketFor(SizeClasses()[k]) == Ok(k)
  {
    SizeClassesIncreasing();
  }

  /** Every size class is served by the free list at its own position. */
  lemma BucketOfMember(c: nat)
    requires c in SizeClasses()
    ensures BucketFor(c).Ok? && SizeClasses()[BucketFor(c).value] == c
  {
    var k :| 0 <= k < NUM_BUCKETS && SizeClasses()[k] == c;
    BucketOfSizeClass(k);
  }

  /** The position of `c` in `s`. */
  function IndexOf(s: seq<nat>, c: nat): (k: nat)
    requires c in s
    ensures k < |s| && s[k] == c
  {
    if s[0] == c then 0 else 1 + IndexOf(s[1..], c)
  }

  /** The free list of a size class, as the eviction looks it up from a row's class. */
  function ClassIndex(c: nat): (k: nat)
    requires c in SizeClasses()
    ensures k < NUM_BUCKETS && SizeClasses()[k] == c
  {
    IndexOf(SizeClasses(), c)
  }

  /** The class at position `k` has class index `k`. */
  lemma ClassIndexOf(k: nat)
    requires k < NUM_BUCKETS
    ensures ClassIndex(SizeClasses()[k]) == k
  {
    SizeClassesIncreasing();
    var j := ClassIndex(SizeClasses()[k]);
    assert SizeClasses()[j] == SizeClasses()[k];
  }

  /** The class index of a size class is the free list `BucketFor` picks for it. */
  lemma ClassIndexIsBucket(c: nat)
    requires c in SizeClasses()
    ensures BucketFor(c) == Ok(ClassIndex(c))
  {
    BucketOfSizeClass(ClassIndex(c));
  }

  /** How many items of class `c` one row is carved into. */
  function ItemsPerRow(c: nat): (n: nat)
    requires c in SizeClasses()
    ensures 1 <= n && n * c <= MAX_VERTEX_TEXTURE_WIDTH
    ensures c != 341 ==> n * c == MAX_VERTEX_TEXTURE_WIDTH
    ensures c == 341 ==> n * c == MAX_VERTEX_TEXTURE_WIDTH - 1
  {
    MAX_VERTEX_TEXTURE_WIDTH / c
  }
}
