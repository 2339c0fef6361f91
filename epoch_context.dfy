/** The epoch context (meraki_epoch_context and meraki_epoch_context_full):
    the epoch's light cache, the L1 buffer of the first dataset items and,
    for a full context, the lazily filled full dataset. */
module EpochContexts {
  import opened HashTypes
  import opened DatasetSpec

  /** The L1 buffer: 16 KiB of 32-bit words. */
  const L1CacheSize := 16 * 1024
  const L1CacheWords := 4096          // L1CacheSize / 4
  const L1CacheItems2048 := 64        // L1CacheSize / 256
  const L1CacheItems1024 := 128       // L1CacheSize / 128

  /** A full-dataset slot whose first 64-bit word is zero has not been
      computed yet. */
  predicate IsSentinel(h: Hash1024)
  {
    Word64At(h, 0) == 0
  }

  /** The only change a lookup makes to the full dataset: every slot keeps
      its value, or goes from a sentinel to the item it stands for. */
  ghost predicate FillsOnly(before: seq<Hash1024>, after: seq<Hash1024>, item: nat -> Hash512)
  {
    && |after| == |before|
    && forall k :: 0 <= k < |before| ==>
         after[k] == before[k] || (IsSentinel(before[k]) && after[k] == Item1024Of(item, k))
  }

  /** Successive lookups together still only fill sentinel slots. */
  lemma FillsOnlyTrans(a: seq<Hash1024>, b: seq<Hash1024>, c: seq<Hash1024>, item: nat -> Hash512)
    requires FillsOnly(a, b, item) && FillsOnly(b, c, item)
    ensures FillsOnly(a, c, item)
  {
  }

  class EpochContext {
    /** The hash primitives every computation on the context uses. */
    const prims: Primitives
    const epochNumber: int
    const lightCacheNumItems: int
    const lightCache: array<Hash512>
    const l1Cache: array<Word>
    const fullDatasetNumItems: int
    /** null for a light context. */
    const fullDataset: array?<Hash1024>

    /** The shape the creation establishes: item counts within `int` and
        positive, buffers of the sizes the counts give. */
    ghost predicate Valid()
    {
      && 0 < lightCacheNumItems <= lightCache.Length
      && lightCacheNumItems < 0x8000_0000
      && 0 < fullDatasetNumItems < 0x8000_0000
      && l1Cache.Length == L1CacheWords
      && (fullDataset != null ==>
            fullDataset.Length == fullDatasetNumItems && L1CacheItems1024 <= fullDatasetNumItems)
    }

    /** The light cache items in use. */
    function Cache(): (c: seq<Hash512>)
      requires Valid()
      reads lightCache
      ensures |c| == lightCacheNumItems
    {
      lightCache[..lightCacheNumItems]
    }

    /** The 512-bit items this context defines. */
    ghost function ItemFn(): nat -> Hash512
      requires Valid()
      reads lightCache
    {
      Items(prims, Cache())
    }

    /** The L1 buffer holds the first 64 items of 2048 bits. */
    ghost predicate L1Filled()
      requires Valid()
      reads lightCache, l1Cache
    {
      forall w :: 0 <= w < L1CacheWords ==> l1Cache[w] == Item2048Of(ItemFn(), w / 64)[w % 64]
    }

    /** Every full-dataset slot is either a sentinel or the item it stands for,
        and the slots the L1 buffer overlaps are computed. */
    ghost predicate SlotsSound()
      requires Valid()
      reads lightCache, fullDataset
    {
      fullDataset != null ==>
        && (forall k :: 0 <= k < L1CacheItems1024 ==> fullDataset[k] == Item1024Of(ItemFn(), k))
        && (forall k :: 0 <= k < fullDataset.Length ==>
              IsSentinel(fullDataset[k]) || fullDataset[k] == Item1024Of(ItemFn(), k))
    }

    /** A context as the creation returns it, and as every lookup leaves it. */
    ghost predicate Ready()
      reads this, lightCache, l1Cache, fullDataset
    {
      && Valid()
      && L1Filled()
      && SlotsSound()
      && lightCache as object != l1Cache
      && (fullDataset != null ==> fullDataset as object != lightCache && fullDataset as object != l1Cache)
    }

    constructor (prims: Primitives, epochNumber: int, lightCacheNumItems: int, lightCache: array<Hash512>,
                 l1Cache: array<Word>, fullDatasetNumItems: int, fullDataset: array?<Hash1024>)
      ensures this.prims == prims && this.epochNumber == epochNumber
      ensures this.lightCacheNumItems == lightCacheNumItems && this.lightCache == lightCache
      ensures this.l1Cache == l1Cache
      ensures this.fullDatasetNumItems == fullDatasetNumItems && this.fullDataset == fullDataset
    {
      this.prims := prims;
      this.epochNumber := epochNumber;
      this.lightCacheNumItems := lightCacheNumItems;
      this.lightCache := lightCache;
      this.l1Cache := l1Cache;
      this.fullDatasetNumItems := fullDatasetNumItems;
      this.fullDataset := fullDataset;
    }
  }

  /** In a full context the L1 buffer is the start of the full dataset:
      word w of the buffer is word w % 32 of full-dataset slot w / 32. */
  lemma L1AliasesFullDataset(ctx: EpochContext, w: int)
    requires ctx.Ready() && ctx.fullDataset != null && 0 <= w < L1CacheWords
    ensures ctx.l1Cache[w] == ctx.fullDataset[w / 32][w % 32]
  {
    L1WordIsItem1024(ctx.ItemFn(), w);
  }
}
