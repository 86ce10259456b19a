/**
 * The fixed-size pool of Vulkan images shared with CUDA (ems_vk_cuda_image_pool): a vector
 * of slots with a `used` flag. Acquiring takes the lowest free slot, releasing clears the flag
 * of the slot whose address is given, and clearing destroys every image that was created.
 * The pool's mutex is left out: the model is sequential.
 */
module ImagePool {
  import opened Wrappers

  /** A Vulkan image and its memory; 0 stands for VK_NULL_HANDLE. */
  datatype VkCudaImage = VkCudaImage(handle: nat, memory: nat)

  /** vk_pooled_cuda_image. */
  datatype PooledImage = PooledImage(base: VkCudaImage, used: bool)

  /** ems_vk_cuda_image_pool_info: extent, Vulkan format and number of slots. */
  datatype PoolInfo = PoolInfo(width: nat, height: nat, vkFormat: nat, poolSize: nat)

  /** The Vulkan calls clear() makes. */
  datatype VulkanRelease = DestroyImage(handle: nat) | FreeMemory(memory: nat)

  /** The index of the lowest unused slot, if any. */
  function FirstUnused(s: seq<PooledImage>): (r: Option<nat>)
    ensures r.None? <==> forall k :: 0 <= k < |s| ==> s[k].used
    ensures r.Some? ==> r.value < |s| && !s[r.value].used && forall k :: 0 <= k < r.value ==> s[k].used
    decreases |s|
  {
    if s == [] then None
    else if !s[0].used then Some(0)
    else
      match FirstUnused(s[1..])
      case None => None
      case Some(i) => Some(i + 1)
  }

  /** The slots after new_image: the lowest unused one, if any, becomes used. */
  function Acquire(s: seq<PooledImage>): seq<PooledImage> {
    match FirstUnused(s)
    case None => s
    case Some(i) => s[i := s[i].(used := true)]
  }

  /** The slots after release_image of slot `i`. */
  function ReleaseAt(s: seq<PooledImage>, i: nat): seq<PooledImage>
    requires i < |s|
  {
    s[i := s[i].(used := false)]
  }

  function UsedCount(s: seq<PooledImage>): (n: nat)
    ensures n <= |s|
    decreases |s|
  {
    if s == [] then 0 else (if s[0].used then 1 else 0) + UsedCount(s[1..])
  }

  lemma {:induction false} UsedCountFlip(s: seq<PooledImage>, i: nat, used: bool)
    requires i < |s| && s[i].used != used
    ensures UsedCount(s[i := s[i].(used := used)]) == UsedCount(s) + (if used then 1 else -1)
    decreases |s|
  {
    var t := s[i := s[i].(used := used)];
    if i > 0 {
      assert t[1..] == s[1..][i - 1 := s[i].(used := used)];
      UsedCountFlip(s[1..], i - 1, used);
    } else {
      assert t[1..] == s[1..];
    }
  }

  /** Acquiring marks exactly one more slot used, unless every slot is already used. */
  lemma AcquireCountsOneMore(s: seq<PooledImage>)
    ensures UsedCount(Acquire(s)) == UsedCount(s) + (if FirstUnused(s).Some? then 1 else 0)
  {
    var r := FirstUnused(s);
    if r.Some? {
      UsedCountFlip(s, r.value, true);
    }
  }

  /** Acquiring and then releasing the slot handed out restores every flag. */
  lemma AcquireThenReleaseRestores(s: seq<PooledImage>)
    requires FirstUnused(s).Some?
    ensures ReleaseAt(Acquire(s), FirstUnused(s).value) == s
  {
    var i := FirstUnused(s).value;
    assert ReleaseAt(Acquire(s), i)[i] == s[i];
  }

  /** The calls clear() makes for the slots `s`, in slot order. */
  function ReleasesOf(s: seq<PooledImage>): (r: seq<VulkanRelease>)
    ensures |r| <= 2 * |s|
    decreases |s|
  {
    if s == [] then []
    else
      (if s[0].base.handle != 0 then [DestroyImage(s[0].base.handle)] else [])
      + (if s[0].base.memory != 0 then [FreeMemory(s[0].base.memory)] else [])
      + ReleasesOf(s[1..])
  }

  lemma {:induction false} ReleasesOfAppend(s: seq<PooledImage>, p: PooledImage)
    ensures ReleasesOf(s + [p]) == ReleasesOf(s) + ReleasesOf([p])
    decreases |s|
  {
    if s == [] {
      assert [] + [p] == [p];
    } else {
      assert (s + [p])[1..] == s[1..] + [p];
      ReleasesOfAppend(s[1..], p);
    }
  }

  lemma {:induction false} ReleasesOfConcat(s: seq<PooledImage>, t: seq<PooledImage>)
    ensures ReleasesOf(s + t) == ReleasesOf(s) + ReleasesOf(t)
    decreases |s|
  {
    if s == [] {
      assert [] + t == t;
    } else {
      assert (s + t)[1..] == s[1..] + t;
      ReleasesOfConcat(s[1..], t);
    }
  }

  /** Slots never filled release nothing. */
  lemma {:induction false} ReleasesOfEmpty(s: seq<PooledImage>)
    requires forall k :: 0 <= k < |s| ==> s[k].base == VkCudaImage(0, 0)
    ensures ReleasesOf(s) == []
    decreases |s|
  {
    if s != [] {
      ReleasesOfEmpty(s[1..]);
    }
  }

  /** Every nonzero handle and memory created is released by clear(). */
  lemma {:induction false} ReleasesOfCoversAll(s: seq<PooledImage>, k: nat)
    requires k < |s|
    ensures s[k].base.handle != 0 ==> DestroyImage(s[k].base.handle) in ReleasesOf(s)
    ensures s[k].base.memory != 0 ==> FreeMemory(s[k].base.memory) in ReleasesOf(s)
    decreases |s|
  {
    if k > 0 {
      ReleasesOfCoversAll(s[1..], k - 1);
    }
  }

  /** A pointer handed to release_image. */
  datatype ImagePtr = NullPtr | PoolSlot(owner: Pool, index: nat) | ForeignPtr(address: nat)

  class Pool {
    var images: array<PooledImage>
    var poolInfo: PoolInfo
    /** The vk_bundle (never null for a created pool). */
    const vk: nat

    constructor (vk: nat, images: array<PooledImage>)
      ensures this.vk == vk && this.images == images && poolInfo == PoolInfo(0, 0, 0, 0)
    {
      this.vk := vk;
      this.images := images;
      poolInfo := PoolInfo(0, 0, 0, 0);
    }

    /** clear(): destroy each created image and free its memory, then empty the vector. */
    method Clear() returns (released: seq<VulkanRelease>)
      modifies this
      ensures released == ReleasesOf(old(images[..]))
      ensures images.Length == 0 && fresh(images)
      ensures poolInfo == old(poolInfo)
    {
      released := [];
      var slots := images;
      var i := 0;
      while i < slots.Length
        invariant 0 <= i <= slots.Length
        invariant released == ReleasesOf(slots[..i])
        invariant images == slots && poolInfo == old(poolInfo)
      {
        var p := slots[i];
        assert slots[..i + 1] == slots[..i] + [p];
        ReleasesOfAppend(slots[..i], p);
        if p.base.handle != 0 {
          released := released + [DestroyImage(p.base.handle)];
        }
        if p.base.memory != 0 {
          released := released + [FreeMemory(p.base.memory)];
        }
        i := i + 1;
      }
      assert slots[..i] == slots[..];
      images := new PooledImage[0];
    }
  }

  /**
   * What ems_create_cuda_vk_image reports for one slot (`ok` for VK_SUCCESS) and what it leaves
   * written into that slot. It writes straight into the pool's slot, so a failed create can leave
   * a half-built image there (the CUDA failure paths destroy the image and null its handle but
   * keep its memory).
   */
  datatype ImageCreation = ImageCreation(ok: bool, image: VkCudaImage)

  /**
   * ems_vk_cuda_image_pool_create. `vk` is 0 for a null bundle and `createInfo` None for a null
   * info pointer; `createImage(k)` is what creating slot k's image yields.
   * On a failure the unique_ptr deletes the partly built pool, whose clear() releases every image
   * created so far and whatever the failed create left in its own slot.
   */
  method CreatePool(vk: nat, createInfo: Option<PoolInfo>, createImage: nat -> ImageCreation)
    returns (pool: Pool?, released: seq<VulkanRelease>)
    ensures vk == 0 || createInfo.None? ==> pool == null && released == []
    ensures pool != null <==>
              vk != 0 && createInfo.Some? && forall k :: 0 <= k < createInfo.value.poolSize ==> createImage(k).ok
    ensures pool != null ==>
              && fresh(pool) && fresh(pool.images) && pool.vk == vk && pool.poolInfo == createInfo.value
              && pool.images.Length == createInfo.value.poolSize && released == []
              && forall k :: 0 <= k < pool.images.Length ==>
                   pool.images[k] == PooledImage(createImage(k).image, false)
    ensures pool == null && vk != 0 && createInfo.Some? ==>
              exists n :: 0 <= n < createInfo.value.poolSize && !createImage(n).ok
                && (forall k :: 0 <= k < n ==> createImage(k).ok)
                && released == ReleasesOf(CreatedBefore(createImage, n) + [PooledImage(createImage(n).image, false)])
                && (createImage(n).image.memory != 0 ==> FreeMemory(createImage(n).image.memory) in released)
  {
    released := [];
    if vk == 0 || createInfo.None? {
      return null, [];
    }
    var info := createInfo.value;
    var images := new PooledImage[info.poolSize](_ => PooledImage(VkCudaImage(0, 0), false));
    var i := 0;
    while i < images.Length
      invariant 0 <= i <= images.Length
      invariant forall k :: 0 <= k < i ==> createImage(k).ok && images[k] == PooledImage(createImage(k).image, false)
      invariant forall k :: i <= k < images.Length ==> images[k] == PooledImage(VkCudaImage(0, 0), false)
    {
      var made := createImage(i);
      images[i] := PooledImage(made.image, false);
      if !made.ok {
        // The unique_ptr deletes the partial pool, leftover of slot i included.
        PartialPoolReleases(images[..], createImage, i);
        var partial := new Pool(vk, images);
        released := partial.Clear();
        ghost var leftover := PooledImage(made.image, false);
        ghost var tried := CreatedBefore(createImage, i) + [leftover];
        assert tried[i] == leftover;
        ReleasesOfCoversAll(tried, i);
        assert 0 <= i < info.poolSize && !createImage(i).ok
          && (forall k :: 0 <= k < i ==> createImage(k).ok)
          && released == ReleasesOf(tried);
        return null, released;
      }
      i := i + 1;
    }
    pool := new Pool(vk, images);
    pool.poolInfo := info;
  }

  /**
   * A pool whose first `i` images were created, whose slot `i` holds what the failed create
   * left and whose other slots are empty releases exactly those `i + 1` slots.
   */
  lemma PartialPoolReleases(s: seq<PooledImage>, createImage: nat -> ImageCreation, i: nat)
    requires i < |s|
    requires forall k :: 0 <= k < i ==> createImage(k).ok && s[k] == PooledImage(createImage(k).image, false)
    requires s[i] == PooledImage(createImage(i).image, false)
    requires forall k :: i < k < |s| ==> s[k] == PooledImage(VkCudaImage(0, 0), false)
    ensures ReleasesOf(s) == ReleasesOf(CreatedBefore(createImage, i) + [PooledImage(createImage(i).image, false)])
  {
    var tried := CreatedBefore(createImage, i) + [s[i]];
    TriedPrefix(s, createImage, i);
    assert s == tried + s[i + 1..];
    ReleasesOfConcat(tried, s[i + 1..]);
    ReleasesOfEmpty(s[i + 1..]);
  }

  /** The first `i + 1` slots are the images created before `i` followed by slot `i`. */
  lemma TriedPrefix(s: seq<PooledImage>, createImage: nat -> ImageCreation, i: nat)
    requires i < |s|
    requires forall k :: 0 <= k < i ==> createImage(k).ok && s[k] == PooledImage(createImage(k).image, false)
    ensures s[..i + 1] == CreatedBefore(createImage, i) + [s[i]]
  {
    assert s[..i] == CreatedBefore(createImage, i);
    assert s[..i + 1] == s[..i] + [s[i]];
  }

  /** The slots of a pool whose first `n` images were created. */
  function CreatedBefore(createImage: nat -> ImageCreation, n: nat): (r: seq<PooledImage>)
    requires forall k :: 0 <= k < n ==> createImage(k).ok
    ensures |r| == n && forall k :: 0 <= k < n ==> r[k] == PooledImage(createImage(k).image, false)
    decreases n
  {
    if n == 0 then [] else CreatedBefore(createImage, n - 1) + [PooledImage(createImage(n - 1).image, false)]
  }

  /** ems_vk_cuda_image_pool_destroy: deleting a pool clears it; deleting null does nothing. */
  method DestroyPool(pool: Pool?) returns (released: seq<VulkanRelease>)
    modifies pool
    ensures pool == null ==> released == []
    ensures pool != null ==> released == ReleasesOf(old(pool.images[..]))
  {
    if pool == null {
      return [];
    }
    released := pool.Clear();
  }

  /** ems_vk_cuda_image_pool_new_image: the lowest unused slot, now marked used, or null. */
  method NewImage(pool: Pool?) returns (r: ImagePtr)
    modifies if pool == null then {} else {pool.images}
    ensures pool == null ==> r == NullPtr
    ensures pool != null ==>
              && pool.images[..] == Acquire(old(pool.images[..]))
              && r == (match FirstUnused(old(pool.images[..]))
                       case None => NullPtr
                       case Some(i) => PoolSlot(pool, i))
  {
    if pool == null {
      return NullPtr;
    }
    var images := pool.images;
    ghost var s := images[..];
    var i := 0;
    while i < images.Length
      invariant 0 <= i <= images.Length
      invariant images[..] == s
      invariant forall k :: 0 <= k < i ==> s[k].used
    {
      if !images[i].used {
        assert !s[i].used;
        assert FirstUnused(s) == Some(i);
        images[i] := images[i].(used := true);
        return PoolSlot(pool, i);
      }
      i := i + 1;
    }
    assert FirstUnused(s).None?;
    r := NullPtr;
  }

  /** ems_vk_cuda_image_pool_release_image: only the slot at the given address becomes unused. */
  method ReleaseImage(pool: Pool?, image: ImagePtr)
    modifies if pool == null then {} else {pool.images}
    ensures pool != null && image.PoolSlot? && image.owner == pool && image.index < pool.images.Length ==>
              pool.images[..] == ReleaseAt(old(pool.images[..]), image.index)
    ensures pool != null && !(image.PoolSlot? && image.owner == pool && image.index < pool.images.Length) ==>
              pool.images[..] == old(pool.images[..])
  {
    if pool == null {
      return;
    }
    var images := pool.images;
    var i := 0;
    while i < images.Length
      invariant 0 <= i <= images.Length
      invariant images[..] == old(images[..])
      invariant forall k :: 0 <= k < i ==> image != PoolSlot(pool, k)
    {
      if image == PoolSlot(pool, i) {
        images[i] := images[i].(used := false);
        return;
      }
      i := i + 1;
    }
  }

  /**
   * ems_vk_cuda_image_pool_get_info: `info` is None for a null out-pointer, otherwise the value
   * it points at; the result is what it points at afterwards.
   */
  function GetInfo(pool: Pool?, info: Option<PoolInfo>): (r: Option<PoolInfo>)
    reads pool
    ensures r.None? <==> info.None?
    ensures pool == null ==> r == info
    ensures pool != null && info.Some? ==> r == Some(pool.poolInfo)
  {
    if pool != null && info.Some? then Some(pool.poolInfo) else info
  }

  /** A pool whose every slot is taken hands out null and changes no flag. */
  lemma FullPoolRefuses(s: seq<PooledImage>)
    requires forall k :: 0 <= k < |s| ==> s[k].used
    ensures FirstUnused(s).None? && Acquire(s) == s
  {
  }
}
