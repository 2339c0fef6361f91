/** Epoch seed and the per-epoch sizes of the light cache and the full
    dataset (src/meraki/meraki/meraki.cpp, the C entry points). */
module EpochSizing {
  import opened HashTypes
  import opened Primes

  const LightCacheInitSize := 0x100_0000        // 1 << 24 bytes
  const LightCacheGrowth := 0x2_0000            // 1 << 17 bytes per epoch step
  const LightCacheItemSize := 64                // one 512-bit item
  const FullDatasetInitSize := 0x4000_0000      // 1 << 30 bytes
  const FullDatasetGrowth := 0x80_0000          // 1 << 23 bytes per epoch step
  const FullDatasetItemSize := 128              // one 1024-bit item

  /** The item counts the size constants give; both divisions are exact. */
  const LightCacheItemsInit := 0x4_0000         // LightCacheInitSize / LightCacheItemSize
  const LightCacheItemsGrowth := 0x800          // LightCacheGrowth / LightCacheItemSize
  const FullDatasetItemsInit := 0x80_0000       // FullDatasetInitSize / FullDatasetItemSize
  const FullDatasetItemsGrowth := 0x1_0000      // FullDatasetGrowth / FullDatasetItemSize

  lemma ItemCountsAreExact()
    ensures LightCacheItemsInit * LightCacheItemSize == LightCacheInitSize
    ensures LightCacheItemsGrowth * LightCacheItemSize == LightCacheGrowth
    ensures FullDatasetItemsInit * FullDatasetItemSize == FullDatasetInitSize
    ensures FullDatasetItemsGrowth * FullDatasetItemSize == FullDatasetGrowth
  {
  }

  /** A value of C's 32-bit `int`. */
  predicate IsInt32(x: int)
  {
    -0x8000_0000 <= x < 0x8000_0000
  }

  function LightCacheUpperBound(epochNumber: int): int
  {
    LightCacheItemsInit + (epochNumber * 4) * LightCacheItemsGrowth
  }

  function FullDatasetUpperBound(epochNumber: int): int
  {
    FullDatasetItemsInit + (epochNumber * 4) * FullDatasetItemsGrowth
  }

  /** Every intermediate of the `int` computation of the bound is in range. */
  predicate LightCacheSizingDefined(epochNumber: int)
  {
    && IsInt32(epochNumber)
    && IsInt32(epochNumber * 4)
    && IsInt32((epochNumber * 4) * LightCacheItemsGrowth)
    && IsInt32(LightCacheUpperBound(epochNumber))
  }

  predicate FullDatasetSizingDefined(epochNumber: int)
  {
    && IsInt32(epochNumber)
    && IsInt32(epochNumber * 4)
    && IsInt32((epochNumber * 4) * FullDatasetItemsGrowth)
    && IsInt32(FullDatasetUpperBound(epochNumber))
  }

  /** meraki_calculate_light_cache_num_items. */
  function LightCacheNumItems(epochNumber: int): (n: int)
    requires LightCacheSizingDefined(epochNumber)
    ensures 0x4_0000 + epochNumber * 0x2000 <= 1 ==> n == 0
    ensures 0x4_0000 + epochNumber * 0x2000 > 1 ==>
      IsPrime(n) && n <= 0x4_0000 + epochNumber * 0x2000 && forall q :: n < q <= 0x4_0000 + epochNumber * 0x2000 ==> !IsPrime(q)
  {
    assert LightCacheUpperBound(epochNumber) == 0x4_0000 + epochNumber * 0x2000;
    FindLargestPrime(LightCacheUpperBound(epochNumber))
  }

  /** meraki_calculate_full_dataset_num_items. */
  function FullDatasetNumItems(epochNumber: int): (n: int)
    requires FullDatasetSizingDefined(epochNumber)
    ensures 0x80_0000 + epochNumber * 0x4_0000 <= 1 ==> n == 0
    ensures 0x80_0000 + epochNumber * 0x4_0000 > 1 ==>
      IsPrime(n) && n <= 0x80_0000 + epochNumber * 0x4_0000 && forall q :: n < q <= 0x80_0000 + epochNumber * 0x4_0000 ==> !IsPrime(q)
  {
    assert FullDatasetUpperBound(epochNumber) == 0x80_0000 + epochNumber * 0x4_0000;
    FindLargestPrime(FullDatasetUpperBound(epochNumber))
  }

  /** The epochs for which both computations stay within `int`. */
  lemma SizingDefinedRange(epochNumber: int)
    ensures LightCacheSizingDefined(epochNumber) <==> -0x4_0000 <= epochNumber <= 0x3_FFDF
    ensures FullDatasetSizingDefined(epochNumber) <==> -0x2000 <= epochNumber <= 0x1FDF
  {
  }

  /** From epoch 0 on, both counts are prime. */
  lemma NumItemsPrime(epochNumber: int)
    requires 0 <= epochNumber && FullDatasetSizingDefined(epochNumber)
    ensures LightCacheSizingDefined(epochNumber)
    ensures IsPrime(LightCacheNumItems(epochNumber))
    ensures IsPrime(FullDatasetNumItems(epochNumber))
  {
  }

  /** Both counts never decrease from one epoch to a later one. */
  lemma NumItemsMonotone(e1: int, e2: int)
    requires e1 <= e2
    requires FullDatasetSizingDefined(e1) && FullDatasetSizingDefined(e2)
    ensures LightCacheSizingDefined(e1) && LightCacheSizingDefined(e2)
    ensures LightCacheNumItems(e1) <= LightCacheNumItems(e2)
    ensures FullDatasetNumItems(e1) <= FullDatasetNumItems(e2)
  {
    FindLargestPrimeMonotone(LightCacheUpperBound(e1), LightCacheUpperBound(e2));
    FindLargestPrimeMonotone(FullDatasetUpperBound(e1), FullDatasetUpperBound(e2));
  }

  // ---------------------------------------------------------------------
  // Epoch seed

  /** The all-zero 256-bit value hashed epochNumber times with Keccak-256. */
  function EpochSeed(keccak256: seq<Byte> -> Hash256, epochNumber: int): Hash256
    decreases epochNumber
  {
    if epochNumber <= 0 then Zeros(8)
    else keccak256(Bytes(EpochSeed(keccak256, epochNumber - 1)))
  }

  lemma EpochSeedChain(keccak256: seq<Byte> -> Hash256, n: int)
    requires n >= 0
    ensures EpochSeed(keccak256, 0) == Zeros(8)
    ensures EpochSeed(keccak256, n + 1) == keccak256(Bytes(EpochSeed(keccak256, n)))
  {
  }

  /** meraki_calculate_epoch_seed. */
  method CalculateEpochSeed(keccak256: seq<Byte> -> Hash256, epochNumber: int)
    returns (epochSeed: Hash256)
    ensures epochSeed == EpochSeed(keccak256, epochNumber)
    ensures epochNumber <= 0 ==> epochSeed == Zeros(8)
  {
    epochSeed := Zeros(8);
    var i := 0;
    while i < epochNumber
      invariant 0 <= i <= if epochNumber > 0 then epochNumber else 0
      invariant epochSeed == EpochSeed(keccak256, i)
    {
      epochSeed := keccak256(Bytes(epochSeed));
      i := i + 1;
    }
    if epochNumber <= 0 {
      assert i == 0 && EpochSeed(keccak256, epochNumber) == EpochSeed(keccak256, 0);
    }
  }
}
