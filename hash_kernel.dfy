/** The hash of a header and a nonce: hash_seed, the hash kernel (dataset
    accesses and the compression of the mix), hash_final, and the light
    (meraki_hash) and full (hash, with the lazy lookup) entry points. */
module HashKernel {
  import opened HashTypes
  import opened DatasetSpec
  import opened EpochContexts
  import opened DatasetItems
  import opened ContextCreation

  // ---------------------------------------------------------------------
  // Seed and final hash

  /** The 40 bytes hash_seed absorbs: the header hash, then the nonce in
      little-endian order. */
  function SeedInput(headerHash: Hash256, nonce: U64): (r: seq<Byte>)
    ensures |r| == 40
  {
    Bytes(headerHash) + Le64Bytes(nonce)
  }

  /** hash_seed: Keccak-512 of the seed input, from whose 40 bytes the
      header hash and the nonce can be read back. */
  function HashSeed(p: Primitives, headerHash: Hash256, nonce: U64): (seed: Hash512)
    ensures seed == p.keccak512(SeedInput(headerHash, nonce))
    ensures Words(SeedInput(headerHash, nonce)[..32]) == headerHash
    ensures LeValue(SeedInput(headerHash, nonce)[32..]) == nonce
  {
    SeedInputLayout(headerHash, nonce);
    p.keccak512(SeedInput(headerHash, nonce))
  }

  /** Both the header hash and the nonce can be read back from the seed
      input, so no two (header, nonce) pairs share it. */
  lemma SeedInputLayout(headerHash: Hash256, nonce: U64)
    ensures Words(SeedInput(headerHash, nonce)[..32]) == headerHash
    ensures LeValue(SeedInput(headerHash, nonce)[32..]) == nonce
  {
    var r := SeedInput(headerHash, nonce);
    assert r[..32] == Bytes(headerHash);
    assert r[32..] == Le64Bytes(nonce);
    WordsOfBytes(headerHash);
    Le64RoundTrip(nonce);
  }

  lemma SeedInputInjective(h1: Hash256, n1: U64, h2: Hash256, n2: U64)
    requires SeedInput(h1, n1) == SeedInput(h2, n2)
    ensures h1 == h2 && n1 == n2
  {
    SeedInputLayout(h1, n1);
    SeedInputLayout(h2, n2);
  }

  /** The 96 bytes hash_final absorbs: the seed, then the mix hash. */
  function FinalInput(seed: Hash512, mixHash: Hash256): (r: seq<Byte>)
    ensures |r| == 96
  {
    Bytes(seed) + Bytes(mixHash)
  }

  /** hash_final: Keccak-256 of the final input, which reads back as the
      seed followed by the mix hash. */
  function HashFinal(p: Primitives, seed: Hash512, mixHash: Hash256): (finalHash: Hash256)
    ensures finalHash == p.keccak256(FinalInput(seed, mixHash))
    ensures Words(FinalInput(seed, mixHash)) == seed + mixHash
  {
    FinalInputLayout(seed, mixHash);
    p.keccak256(FinalInput(seed, mixHash))
  }

  /** Read back as words, the final input is the seed followed by the mix hash. */
  lemma FinalInputLayout(seed: Hash512, mixHash: Hash256)
    ensures Words(FinalInput(seed, mixHash)) == seed + mixHash
  {
    BytesAppend(seed, mixHash);
    WordsOfBytes(seed + mixHash);
  }

  lemma FinalInputInjective(s1: Hash512, m1: Hash256, s2: Hash512, m2: Hash256)
    requires FinalInput(s1, m1) == FinalInput(s2, m2)
    ensures s1 == s2 && m1 == m2
  {
    FinalInputLayout(s1, m1);
    FinalInputLayout(s2, m2);
    assert (s1 + m1)[..16] == s1 && (s2 + m2)[..16] == s2;
    assert (s1 + m1)[16..] == m1 && (s2 + m2)[16..] == m2;
  }

  // ---------------------------------------------------------------------
  // The kernel, as functions

  /** The full-dataset item read by access i of the kernel. */
  function AccessIndex(fnv1: (Word, Word) -> Word, seedInit: Word, i: U32, mix: Hash1024, indexLimit: int): (r: U32)
    requires 0 < indexLimit < 0x1_0000_0000
    ensures r < indexLimit
  {
    (fnv1((i as Word) ^ seedInit, mix[i % 32]) as int) % indexLimit
  }

  /** The mix after accesses 0 .. i-1: it starts as the seed twice, and each
      access FNV-mixes it word by word with a full-dataset item. */
  function KernelMix(p: Primitives, cache: seq<Hash512>, n: int, seed: Hash512, i: U32): Hash1024
    requires |cache| > 0 && 0 < n < 0x1_0000_0000
  {
    if i == 0 then seed + seed
    else
      var mix := KernelMix(p, cache, n, seed, i - 1);
      var item := Item1024Of(Items(p, cache), AccessIndex(p.fnv1, seed[0], i - 1, mix, n));
      Fnv1From(p.fnv1, mix, item, 0)
  }

  /** The 256-bit mix hash: word k folds words 4k .. 4k+3 of the mix with fnv1. */
  function Compress(fnv1: (Word, Word) -> Word, m: Hash1024): Hash256
  {
    seq(8, k requires 0 <= k < 8 => fnv1(fnv1(fnv1(m[4 * k], m[4 * k + 1]), m[4 * k + 2]), m[4 * k + 3]))
  }

  /** What hash_kernel returns for a seed. */
  function MixHashOf(p: Primitives, cache: seq<Hash512>, n: int, seed: Hash512): Hash256
    requires |cache| > 0 && 0 < n < 0x1_0000_0000
  {
    Compress(p.fnv1, KernelMix(p, cache, n, seed, p.numDatasetAccesses))
  }

  datatype HashResult = HashResult(finalHash: Hash256, mixHash: Hash256)

  /** What meraki_hash and hash return for a header hash and a nonce. */
  function HashOf(p: Primitives, cache: seq<Hash512>, n: int, headerHash: Hash256, nonce: U64): HashResult
    requires |cache| > 0 && 0 < n < 0x1_0000_0000
  {
    var seed := HashSeed(p, headerHash, nonce);
    var mixHash := MixHashOf(p, cache, n, seed);
    HashResult(HashFinal(p, seed, mixHash), mixHash)
  }

  // ---------------------------------------------------------------------
  // The kernel, as the source runs it

  /** hash_kernel. The lookup is calculate_dataset_item_1024 when lazy is
      false (nothing changes) and the lazy full-dataset lookup when it is
      true (the context stays ready, and slots only go from a sentinel to
      their item); the mix hash is the same either way. */
  method HashKernelMix(ctx: EpochContext, seed: Hash512, lazy: bool) returns (mixHash: Hash256)
    requires ctx.Valid()
    requires lazy ==> ctx.Ready() && ctx.fullDataset != null
    modifies if lazy then {ctx.fullDataset} else {}
    ensures mixHash == MixHashOf(ctx.prims, ctx.Cache(), ctx.fullDatasetNumItems, seed)
    ensures lazy ==> ctx.Ready()
    ensures lazy ==> FillsOnly(old(ctx.fullDataset[..]), ctx.fullDataset[..], ctx.ItemFn())
  {
    ghost var start := if lazy then ctx.fullDataset[..] else [];
    var mix: Hash1024 := seed + seed;
    var i: U32 := 0;
    while i < ctx.prims.numDatasetAccesses
      invariant i <= ctx.prims.numDatasetAccesses
      invariant mix == KernelMix(ctx.prims, ctx.Cache(), ctx.fullDatasetNumItems, seed, i)
      invariant lazy ==> ctx.Ready() && FillsOnly(start, ctx.fullDataset[..], ctx.ItemFn())
    {
      mix := KernelAccess(ctx, seed, lazy, i, mix, start);
      i := i + 1;
    }
    mixHash := CompressMix(ctx.prims.fnv1, mix);
  }

  /** Access i of the kernel: the item at the access index, read through the
      lookup, FNV-mixed into the mix word by word. The lazy lookup only fills
      sentinel slots, so the dataset still differs from its state start at
      the kernel's entry by filled slots alone. */
  method KernelAccess(ctx: EpochContext, seed: Hash512, lazy: bool, i: U32, mix: Hash1024, ghost start: seq<Hash1024>)
    returns (next: Hash1024)
    requires ctx.Valid()
    requires lazy ==> ctx.Ready() && ctx.fullDataset != null && FillsOnly(start, ctx.fullDataset[..], ctx.ItemFn())
    requires i < ctx.prims.numDatasetAccesses
    requires mix == KernelMix(ctx.prims, ctx.Cache(), ctx.fullDatasetNumItems, seed, i)
    modifies if lazy then {ctx.fullDataset} else {}
    ensures next == KernelMix(ctx.prims, ctx.Cache(), ctx.fullDatasetNumItems, seed, i + 1)
    ensures lazy ==> ctx.Ready() && FillsOnly(start, ctx.fullDataset[..], ctx.ItemFn())
  {
    var indexLimit := ctx.fullDatasetNumItems;
    var seedInit := seed[0];
    var p := AccessIndex(ctx.prims.fnv1, seedInit, i, mix, indexLimit);
    ghost var cache := ctx.Cache();
    var newData := Lookup(ctx, p, lazy, start);
    assert ctx.Cache() == cache;
    next := Fnv1Mix(ctx.prims.fnv1, mix, newData);
  }

  /** The lookup the kernel was given. The lazy one only fills sentinel
      slots, so the dataset still differs from its state start at the
      kernel's entry by filled slots alone. */
  method Lookup(ctx: EpochContext, index: U32, lazy: bool, ghost start: seq<Hash1024>) returns (item: Hash1024)
    requires ctx.Valid() && index < ctx.fullDatasetNumItems
    requires lazy ==> ctx.Ready() && ctx.fullDataset != null && FillsOnly(start, ctx.fullDataset[..], ctx.ItemFn())
    modifies if lazy then {ctx.fullDataset} else {}
    ensures item == Item1024Of(Items(ctx.prims, ctx.Cache()), index)
    ensures lazy ==> ctx.Ready() && FillsOnly(start, ctx.fullDataset[..], ctx.ItemFn())
  {
    if lazy {
      ghost var before := ctx.fullDataset[..];
      item := LazyLookup(ctx, index);
      FillsOnlyTrans(start, before, ctx.fullDataset[..], ctx.ItemFn());
    } else {
      item := CalculateDatasetItem1024(ctx, index);
    }
  }

  /** The compression loop, over the mix four words at a time. */
  method CompressMix(fnv1: (Word, Word) -> Word, mix: Hash1024) returns (mixHash: Hash256)
    ensures mixHash == Compress(fnv1, mix)
  {
    ghost var target := Compress(fnv1, mix);
    mixHash := Zeros(8);
    var i := 0;
    while i < 32
      invariant 0 <= i <= 32 && i % 4 == 0
      invariant forall k :: 0 <= k < i / 4 ==> mixHash[k] == target[k]
    {
      var h1 := fnv1(mix[i], mix[i + 1]);
      var h2 := fnv1(h1, mix[i + 2]);
      var h3 := fnv1(h2, mix[i + 3]);
      mixHash := mixHash[i / 4 := h3];
      i := i + 4;
    }
  }

  // ---------------------------------------------------------------------
  // Entry points

  /** meraki_hash: the light hash, which computes each item it reads. */
  method MerakiHash(ctx: EpochContext, headerHash: Hash256, nonce: U64) returns (r: HashResult)
    requires ctx.Valid()
    ensures r == HashOf(ctx.prims, ctx.Cache(), ctx.fullDatasetNumItems, headerHash, nonce)
  {
    var seed := HashSeed(ctx.prims, headerHash, nonce);
    var mixHash := HashKernelMix(ctx, seed, false);
    r := HashResult(HashFinal(ctx.prims, seed, mixHash), mixHash);
  }

  /** hash on a full context: the lazy lookup fills the sentinel slots it
      reads and changes no other slot, and the result is the one meraki_hash
      gives. */
  method Hash(ctx: EpochContext, headerHash: Hash256, nonce: U64) returns (r: HashResult)
    requires ctx.Ready() && ctx.fullDataset != null
    modifies ctx.fullDataset
    ensures ctx.Ready()
    ensures FillsOnly(old(ctx.fullDataset[..]), ctx.fullDataset[..], ctx.ItemFn())
    ensures r == HashOf(ctx.prims, ctx.Cache(), ctx.fullDatasetNumItems, headerHash, nonce)
  {
    var seed := HashSeed(ctx.prims, headerHash, nonce);
    var mixHash := HashKernelMix(ctx, seed, true);
    r := HashResult(HashFinal(ctx.prims, seed, mixHash), mixHash);
  }
}
