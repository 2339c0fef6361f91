/** Creating an epoch context (generic::create_epoch_context with the
    Keccak-512 light-cache builder) and the lazy full-dataset lookup used by
    the full `hash`. */
module ContextCreation {
  import opened Arithmetic
  import opened HashTypes
  import opened Primes
  import opened EpochSizing
  import opened LightCache
  import opened DatasetSpec
  import opened EpochContexts
  import opened DatasetItems

  /** The epochs a context can be created for: both item counts computed
      without `int` overflow and a non-empty light cache (the dataset items
      reduce indices modulo the light-cache size). */
  predicate SupportedEpoch(epochNumber: int)
  {
    && FullDatasetSizingDefined(epochNumber)
    && LightCacheSizingDefined(epochNumber)
    && LightCacheNumItems(epochNumber) > 0
  }

  /** The supported epochs are exactly -31 .. 8159. */
  lemma SupportedEpochRange(epochNumber: int)
    ensures SupportedEpoch(epochNumber) <==> -31 <= epochNumber <= 0x1FDF
  {
    SizingDefinedRange(epochNumber);
    if -31 <= epochNumber <= 0x1FDF {
      assert LightCacheUpperBound(epochNumber) >= 0x2000;
      assert IsPrime(LightCacheNumItems(epochNumber));
    } else if -0x2000 <= epochNumber < -31 {
      assert LightCacheUpperBound(epochNumber) <= 0;
    }
  }

  /** On a supported epoch both counts fit the context's invariant and the
      full dataset covers the L1 buffer. */
  lemma SupportedEpochCounts(epochNumber: int)
    requires SupportedEpoch(epochNumber)
    ensures 0 < LightCacheNumItems(epochNumber) < 0x8000_0000
    ensures L1CacheItems1024 <= FullDatasetNumItems(epochNumber) < 0x8000_0000
  {
    SupportedEpochRange(epochNumber);
    assert FullDatasetUpperBound(epochNumber) >= 0x4_0000;
    LargestPrimeAtLeast131(FullDatasetUpperBound(epochNumber));
  }

  /** create_epoch_context: a light context when full is false, a full one
      otherwise; null when the allocation fails. The light cache is built
      from the epoch seed and the L1 buffer holds the first 64 items of 2048
      bits; the full dataset starts out as all sentinels apart from the
      slots the L1 buffer overlaps. */
  method CreateEpochContext(prims: Primitives, epochNumber: int, full: bool) returns (ctx: EpochContext?)
    requires SupportedEpoch(epochNumber)
    ensures ctx != null ==> fresh(ctx) && fresh(ctx.lightCache) && fresh(ctx.l1Cache)
    ensures ctx != null ==> ctx.Ready() && ctx.prims == prims && ctx.epochNumber == epochNumber
    ensures ctx != null ==> ctx.lightCacheNumItems == LightCacheNumItems(epochNumber)
    ensures ctx != null ==> ctx.fullDatasetNumItems == FullDatasetNumItems(epochNumber)
    ensures ctx != null ==>
              ctx.Cache() == LightCacheItems(prims.keccak512, EpochSeed(prims.keccak256, epochNumber),
                                             LightCacheNumItems(epochNumber))
    ensures ctx != null ==> (ctx.fullDataset != null <==> full)
    ensures ctx != null && full ==> fresh(ctx.fullDataset)
    ensures ctx != null && full ==>
              forall k :: L1CacheItems1024 <= k < ctx.fullDatasetNumItems ==> IsSentinel(ctx.fullDataset[k])
  {
    var lightCacheNumItems := LightCacheNumItems(epochNumber);
    var fullDatasetNumItems := FullDatasetNumItems(epochNumber);
    SupportedEpochCounts(epochNumber);
    if * {
      // The allocation failed.
      return null;
    }
    var lightCache := new Hash512[lightCacheNumItems](_ => Zeros(16));
    var epochSeed := CalculateEpochSeed(prims.keccak256, epochNumber);
    BuildLightCache(prims.keccak512, lightCache, lightCacheNumItems, epochSeed);
    var l1Cache := new Word[L1CacheWords](_ => 0);
    var fullDataset: array?<Hash1024> := null;
    if full {
      fullDataset := new Hash1024[fullDatasetNumItems](_ => Zeros(32));
    }
    ctx := new EpochContext(prims, epochNumber, lightCacheNumItems, lightCache,
                            l1Cache, fullDatasetNumItems, fullDataset);
    FillL1(ctx);
  }

  /** The loop that writes the first 64 items of 2048 bits into the L1
      buffer, which in a full context is the start of the full dataset. */
  method FillL1(ctx: EpochContext)
    requires ctx.Valid()
    requires ctx.lightCache as object != ctx.l1Cache
    requires ctx.fullDataset != null ==>
               && ctx.fullDataset as object != ctx.lightCache && ctx.fullDataset as object != ctx.l1Cache
               && forall k :: 0 <= k < ctx.fullDataset.Length ==> IsSentinel(ctx.fullDataset[k])
    modifies ctx.l1Cache, ctx.fullDataset
    ensures ctx.Ready()
    ensures ctx.fullDataset != null ==>
              forall k :: L1CacheItems1024 <= k < ctx.fullDataset.Length ==> IsSentinel(ctx.fullDataset[k])
  {
    var i: U32 := 0;
    while i < L1CacheItems2048
      invariant i <= L1CacheItems2048
      invariant forall w :: 0 <= w < 64 * i ==> ctx.l1Cache[w] == Item2048Of(ctx.ItemFn(), w / 64)[w % 64]
      invariant ctx.fullDataset != null ==>
                  && (forall k :: 0 <= k < 2 * i ==> ctx.fullDataset[k] == Item1024Of(ctx.ItemFn(), k))
                  && (forall k :: 2 * i <= k < ctx.fullDataset.Length ==> IsSentinel(ctx.fullDataset[k]))
    {
      var item := CalculateDatasetItem2048(ctx, i);
      StoreItem2048(ctx, i, item);
      i := i + 1;
    }
  }

  /** full_dataset_2048[i] = item: words 64i .. 64i+63 of the L1 buffer, and
      in a full context slots 2i and 2i+1 of the full dataset. */
  method StoreItem2048(ctx: EpochContext, i: U32, item: Hash2048)
    requires ctx.Valid() && i < L1CacheItems2048
    requires item == Item2048Of(ctx.ItemFn(), i)
    requires ctx.lightCache as object != ctx.l1Cache
    requires ctx.fullDataset != null ==>
               ctx.fullDataset as object != ctx.lightCache && ctx.fullDataset as object != ctx.l1Cache
    requires forall w :: 0 <= w < 64 * i ==> ctx.l1Cache[w] == Item2048Of(ctx.ItemFn(), w / 64)[w % 64]
    requires ctx.fullDataset != null ==>
               && (forall k :: 0 <= k < 2 * i ==> ctx.fullDataset[k] == Item1024Of(ctx.ItemFn(), k))
               && (forall k :: 2 * i <= k < ctx.fullDataset.Length ==> IsSentinel(ctx.fullDataset[k]))
    modifies ctx.l1Cache, ctx.fullDataset
    ensures forall w :: 0 <= w < 64 * (i + 1) ==> ctx.l1Cache[w] == Item2048Of(ctx.ItemFn(), w / 64)[w % 64]
    ensures ctx.fullDataset != null ==>
              && (forall k :: 0 <= k < 2 * (i + 1) ==> ctx.fullDataset[k] == Item1024Of(ctx.ItemFn(), k))
              && (forall k :: 2 * (i + 1) <= k < ctx.fullDataset.Length ==> IsSentinel(ctx.fullDataset[k]))
  {
    StoreL1Words(ctx.l1Cache, ctx.ItemFn(), i, item);
    if ctx.fullDataset != null {
      StoreSlots(ctx.fullDataset, ctx.ItemFn(), i, item);
    }
  }

  /** The L1 half of the store: words 64i .. 64i+63. */
  method StoreL1Words(l1Cache: array<Word>, ghost itemFn: nat -> Hash512, i: U32, item: Hash2048)
    requires l1Cache.Length == L1CacheWords && i < L1CacheItems2048
    requires item == Item2048Of(itemFn, i)
    requires forall w :: 0 <= w < 64 * i ==> l1Cache[w] == Item2048Of(itemFn, w / 64)[w % 64]
    modifies l1Cache
    ensures forall w :: 0 <= w < 64 * (i + 1) ==> l1Cache[w] == Item2048Of(itemFn, w / 64)[w % 64]
  {
    var base := 64 * i;
    forall w | base <= w < base + 64 {
      l1Cache[w] := item[w - base];
    }
    forall w | base <= w < base + 64
      ensures l1Cache[w] == Item2048Of(itemFn, w / 64)[w % 64]
    {
      WordOfItem2048(w, i);
    }
  }

  /** The full-dataset half of the store: slots 2i and 2i+1. */
  method StoreSlots(fullDataset: array<Hash1024>, ghost itemFn: nat -> Hash512, i: U32, item: Hash2048)
    requires i < L1CacheItems2048 && L1CacheItems1024 <= fullDataset.Length
    requires item == Item2048Of(itemFn, i)
    requires forall k :: 0 <= k < 2 * i ==> fullDataset[k] == Item1024Of(itemFn, k)
    requires forall k :: 2 * i <= k < fullDataset.Length ==> IsSentinel(fullDataset[k])
    modifies fullDataset
    ensures forall k :: 0 <= k < 2 * (i + 1) ==> fullDataset[k] == Item1024Of(itemFn, k)
    ensures forall k :: 2 * (i + 1) <= k < fullDataset.Length ==> IsSentinel(fullDataset[k])
  {
    Item2048Halves(itemFn, i);
    fullDataset[2 * i] := item[..32];
    fullDataset[2 * i + 1] := item[32..];
  }

  /** Word w of the buffer of 2048-bit items lies in item i. */
  lemma WordOfItem2048(w: int, i: nat)
    requires 64 * i <= w < 64 * i + 64
    ensures w / 64 == i && w % 64 == w - 64 * i
  {
    DivUnique(w, 64, i, w - 64 * i);
    ModUnique(w, 64, i, w - 64 * i);
  }

  /** The lookup of the full `hash`: slot index is returned as it is when
      its first 64-bit word is nonzero, and otherwise computed, stored and
      returned. Either way the result is the dataset item, and the context
      stays ready. */
  method LazyLookup(ctx: EpochContext, index: U32) returns (item: Hash1024)
    requires ctx.Ready() && ctx.fullDataset != null && index < ctx.fullDatasetNumItems
    modifies ctx.fullDataset
    ensures ctx.Ready()
    ensures item == Item1024Of(ctx.ItemFn(), index)
    ensures ctx.fullDataset[index] == item
    ensures !old(IsSentinel(ctx.fullDataset[index])) ==> unchanged(ctx.fullDataset)
    ensures forall k :: 0 <= k < ctx.fullDataset.Length && k != index ==> ctx.fullDataset[k] == old(ctx.fullDataset[k])
    ensures FillsOnly(old(ctx.fullDataset[..]), ctx.fullDataset[..], ctx.ItemFn())
  {
    var fullDataset := ctx.fullDataset;
    if IsSentinel(fullDataset[index]) {
      var computed := CalculateDatasetItem1024(ctx, index);
      fullDataset[index] := computed;
    }
    item := fullDataset[index];
  }
}
