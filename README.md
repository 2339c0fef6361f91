# Meraki proof-of-work engine, modelled in Dafny

This project models the core of the Meraki proof-of-work engine
(`src/meraki/meraki/meraki.cpp`). It is an Ethash-style algorithm:

- An epoch number determines a seed and two prime item counts.
- The seed is expanded into a light cache: a Keccak-512 hash chain that three
  in-place mixing rounds then stir.
- Each 512-bit dataset item folds 512 light-cache parents, picked with FNV-1,
  into a mix.
- The hash of a header and a nonce runs a kernel. The kernel FNV-mixes
  full-dataset items into a 1024-bit mix and compresses it to a 256-bit mix
  hash.
- The final hash is checked against a boundary.

The model also covers `find_epoch_number`, the creation of an epoch context
with its L1 buffer and its lazily filled full dataset, the nonce searches,
the two verification entry points and `light_verify`.

Keccak-256, Keccak-512, Keccak-f[800], the scalar `fnv1`, `is_less_or_equal`,
`is_equal` and `num_dataset_accesses` are not part of this model. They are
passed as parameters, most of them as the fields of a `Primitives` value, so
the proofs hold
for any such functions, with one exception: `SearchVerify.VerifyMeansHash`
requires `is_equal` to be equality, and `SearchVerify.VerifyRoundTrip` and
`SearchVerify.SolutionVerifies` require it to be reflexive. Nothing in the
proofs depends on cryptography.

Modules, one per part of the engine:

| module | file | models |
|---|---|---|
| `Arithmetic` | arithmetic.dfy | division facts shared by the other modules |
| `HashTypes` | hash_types.dfy | hash values as word sequences, their little-endian bytes and 64-bit words, the 512-bit `fnv1` and `bitwise_xor` |
| `Primes` | primes.dfy | the contract of `meraki_find_largest_prime` |
| `EpochSizing` | epoch_sizing.dfy | the epoch seed and both item counts |
| `EpochLookup` | epoch_lookup.dfy | `find_epoch_number`, whose cache is the state of an object |
| `LightCache` | light_cache.dfy | `build_light_cache`, in place on an array, against a pure specification of the chain and rounds |
| `DatasetSpec` | dataset_spec.dfy | what a dataset item is, as functions of the light cache |
| `EpochContexts` | epoch_context.dfy | the epoch context class and the invariant its buffers keep |
| `DatasetItems` | dataset_items.dfy | `item_state` as a class, and `calculate_dataset_item_512/1024/2048` |
| `ContextCreation` | context_creation.dfy | `create_epoch_context`, the L1 fill and the lazy lookup |
| `HashKernel` | hash_kernel.dfy | `hash_seed`, `hash_final`, `hash_kernel`, `meraki_hash` and the full `hash` |
| `SearchVerify` | search_verify.dfy | `search_light`, `search`, `meraki_verify_final_hash`, `meraki_verify` |
| `LightVerify` | light_verify.dfy | `light_verify` and its 25-word states |

Some points where the code, and so the model, behave in ways a reader may
not expect:

- **The L1 buffer is filled in every context.** The code computes the 64
  2048-bit L1 items in light contexts too, not only when the full dataset is
  requested. In a full context the buffer is the start of the full dataset.
- **Epochs outside -31 .. 8159 are excluded.** `EpochSizing.SizingDefinedRange`
  gives the ranges where the `int` arithmetic of the bounds stays in range.
  The full-dataset bound overflows for every epoch outside -8192 .. 8159.
  The light-cache bound overflows for every epoch outside
  -262144 .. 262111. From -8192 to -32 both bounds are defined, but the
  light-cache bound is at most 1, so its count is 0. The item computation
  then takes a remainder by zero. The source leaves both cases undefined.
- **The nonce range can wrap to empty.** `start_nonce + iterations` wraps
  modulo 2^64, and a wrapped end nonce makes the search range empty.
- **Only the first word of a seed is compared.** `find_epoch_number` matches
  on word 0 of the seed alone.

## Model

| member | source | states |
|---|---|---|
| `HashTypes.Fnv1Mix` | src/meraki/meraki/meraki.cpp:43-49 | the word-by-word loop yields the word-wise FNV-1 mix of u and v |
| `HashTypes.Fnv1MixAt` | src/meraki/meraki/meraki.cpp:43-49 | word k of the mix is `fnv1(u[k], v[k])`, for every k |
| `HashTypes.BitwiseXor` | src/meraki/meraki/meraki.cpp:51-57 | the loop over the eight 64-bit words yields the word-wise exclusive or of the 32-bit words |
| `HashTypes.XorWord64` | src/meraki/meraki/meraki.cpp:54-55 | one 64-bit xor, split into its halves, gives words 2i and 2i+1 of the 32-bit xor |
| `HashTypes.Xor512On64BitWords` | src/meraki/meraki/meraki.cpp:51-57 | every 64-bit word of the xor is the xor of the inputs' 64-bit words, so the two views agree |
| `HashTypes.Word64Zero` | src/meraki/meraki/meraki.cpp:315 | the first 64-bit word of a slot is zero exactly when its first two 32-bit words are zero |
| `HashTypes.Le64RoundTrip` | src/meraki/meraki/meraki.cpp:262-265 | the 8 little-endian bytes of the nonce denote the nonce |
| `HashTypes.HalvesAreLe64Bytes` | src/meraki/meraki/meraki.cpp:477-478 | `(uint32_t)nonce` and `(uint32_t)(nonce >> 32)`, stored little-endian, are the nonce's 8 little-endian bytes |
| `HashTypes.Low32Value` | src/meraki/meraki/meraki.cpp:194 | the 32-bit truncation of an index denotes the index mod 2^32 |
| `Primes.FindLargestPrime` | algomodule/meraki/meraki/primes.h:14-21 | 0 for a bound of at most 1; otherwise a prime no greater than the bound, with no prime between it and the bound |
| `Primes.FindLargestPrimeMonotone` | algomodule/meraki/meraki/primes.h:14-21 | a larger bound never gives a smaller prime |
| `Primes.IsPrimeMeans` | algomodule/meraki/meraki/primes.h:15-18 | trial division up to the square root decides primality: no divisor in 2 .. n-1 |
| `EpochSizing.ItemCountsAreExact` | src/meraki/meraki/meraki.cpp:370-391 | the cache size constants are exact multiples of the 64-byte item, so the item counts lose nothing |
| `EpochSizing.LightCacheNumItems` | src/meraki/meraki/meraki.cpp:368-381 | the largest prime not above 262144 + 8192·epoch, or 0 when that bound is at most 1 |
| `EpochSizing.FullDatasetNumItems` | src/meraki/meraki/meraki.cpp:383-396 | the largest prime not above 8388608 + 262144·epoch, or 0 when that bound is at most 1 |
| `EpochSizing.SizingDefinedRange` | src/meraki/meraki/meraki.cpp:378-393 | the `int` arithmetic of the bounds stays in range exactly for epochs -262144 .. 262111 (light) and -8192 .. 8159 (full) |
| `EpochSizing.NumItemsPrime` | src/meraki/meraki/meraki.cpp:368-396 | from epoch 0 on both counts are prime |
| `EpochSizing.NumItemsMonotone` | src/meraki/meraki/meraki.cpp:368-396 | both counts never decrease from an epoch to a later one |
| `EpochSizing.EpochSeedChain` | src/meraki/meraki/meraki.cpp:360-366 | the seed of epoch 0 is all zeros and each seed is the Keccak-256 of the previous one |
| `EpochSizing.CalculateEpochSeed` | src/meraki/meraki/meraki.cpp:360-366 | the loop returns the epoch's seed, all zeros for an epoch of at most 0 |
| `EpochLookup.EpochNumberCache.constructor` | src/meraki/meraki/meraki.cpp:65-66 | the cache starts at epoch 0 with the all-zero seed, which is the seed of epoch 0 |
| `EpochLookup.EpochNumberCache.FindEpochNumber` | src/meraki/meraki/meraki.cpp:60-100 | the cached epoch when word 0 matches the cached seed, unchanged; otherwise the next epoch, which is cached, when it matches; otherwise the first epoch below 30000 whose seed matches, which is cached; otherwise -1 and nothing changes; the cached seed is always the seed of the cached epoch |
| `EpochLookup.EpochNumberCache.FirstMatch` | src/meraki/meraki/meraki.cpp:85-99 | the linear search returns the first matching epoch below 30000 and its seed, or -1 when no epoch below 30000 matches |
| `LightCache.MixIndices` | src/meraki/meraki/meraki.cpp:119-126 | both read indices are below num_items; v is word 0 of item i mod num_items; w is i-1, or num_items-1 for i == 0 |
| `LightCache.BuildChain` | src/meraki/meraki/meraki.cpp:107-113 | item i becomes the (i+1)-fold hash of the seed; nothing beyond the items written changes |
| `LightCache.MixItem` | src/meraki/meraki/meraki.cpp:119-129 | one step writes item i := hash(cache[v] xor cache[w]) and changes nothing else |
| `LightCache.MixRound` | src/meraki/meraki/meraki.cpp:117-130 | one round over the array is the sequential specification of the round; items beyond num_items keep their values |
| `LightCache.BuildLightCache` | src/meraki/meraki/meraki.cpp:104-132 | the array ends as the chain stirred by three rounds and nothing beyond the items written changes |
| `LightCache.MixPrefixKeepsLater` | src/meraki/meraki/meraki.cpp:117-130 | within a round, steps before k leave item k as it was |
| `LightCache.MixPrefixKeepsEarlier` | src/meraki/meraki/meraki.cpp:117-130 | within a round, item k is final once step k has run |
| `LightCache.RoundItem` | src/meraki/meraki/meraki.cpp:115-131 | item i of a round hashes the xor of v, read after steps 0 .. i-1, with item i-1 already updated in the same round, or for i == 0 the last item not yet updated |
| `DatasetSpec.ParentIndex` | src/meraki/meraki/meraki.cpp:204-205 | the parent index `t % num_cache_items` is below num_cache_items |
| `DatasetSpec.ItemSeedLow32` | src/meraki/meraki/meraki.cpp:194 | only the low 32 bits of the index reach the seed: indices 2^32 apart share it |
| `DatasetSpec.Item2048Halves` | src/meraki/meraki/meraki.cpp:238-254 | a 2048-bit item is the 1024-bit items 2i and 2i+1 side by side |
| `DatasetSpec.L1WordIsItem1024` | src/meraki/meraki/meraki.cpp:171-173 | word w of the buffer of 2048-bit items is word w mod 32 of 1024-bit item w / 32 |
| `EpochContexts.EpochContext.constructor` | src/meraki/meraki/meraki.cpp:162-169 | the context holds the epoch, both counts, the light cache, the L1 buffer and the full dataset it is given |
| `EpochContexts.L1AliasesFullDataset` | src/meraki/meraki/meraki.cpp:157-160 | in a full context word w of the L1 buffer is word w mod 32 of full-dataset slot w / 32 |
| `DatasetItems.ItemState.constructor` | src/meraki/meraki/meraki.cpp:191-199 | the state starts from light-cache item index mod n, word 0 xored with the seed, re-hashed: the item's mix after 0 rounds |
| `DatasetItems.ItemState.Update` | src/meraki/meraki/meraki.cpp:201-207 | update round j turns the mix after j rounds into the mix after j+1 rounds |
| `DatasetItems.ItemState.Final` | src/meraki/meraki/meraki.cpp:209 | after all 512 rounds the final hash is the 512-bit item |
| `DatasetItems.CalculateDatasetItem512` | src/meraki/meraki/meraki.cpp:212-218 | 512 update rounds, then the final hash, give the 512-bit item of the index |
| `DatasetItems.CalculateDatasetItem1024` | src/meraki/meraki/meraki.cpp:224-236 | the two interleaved states give the independent 512-bit items 2i and 2i+1 side by side |
| `DatasetItems.CalculateDatasetItem2048` | src/meraki/meraki/meraki.cpp:238-254 | the four interleaved states give the independent 512-bit items 4i .. 4i+3 side by side |
| `DatasetItems.UpdateFour` | src/meraki/meraki/meraki.cpp:245-251 | one interleaved round advances each of four distinct states by one round |
| `ContextCreation.SupportedEpochRange` | src/meraki/meraki/meraki.cpp:140-141 | both counts are defined and the light cache is non-empty exactly for epochs -31 .. 8159 |
| `ContextCreation.SupportedEpochCounts` | src/meraki/meraki/meraki.cpp:140-145 | on those epochs both counts fit in `int` and the full dataset has at least the 128 items the L1 buffer covers |
| `ContextCreation.CreateEpochContext` | src/meraki/meraki/meraki.cpp:134-175 | null on allocation failure; otherwise a fresh context with both counts, the light cache built from the epoch seed, the L1 buffer filled, a full dataset exactly when requested, and every slot beyond the L1 region still unfilled |
| `ContextCreation.FillL1` | src/meraki/meraki/meraki.cpp:171-173 | the 64 2048-bit items fill the L1 buffer and, in a full context, full-dataset slots 0 .. 127; the context is then ready |
| `ContextCreation.StoreItem2048` | src/meraki/meraki/meraki.cpp:173 | storing item i fills L1 words 64i .. 64i+63 and slots 2i, 2i+1, and keeps the later slots unfilled |
| `EpochContexts.FillsOnlyTrans` | src/meraki/meraki/meraki.cpp:311-322 | successive lookups, each of which only fills sentinel slots with their items, together only fill sentinel slots with their items |
| `ContextCreation.LazyLookup` | src/meraki/meraki/meraki.cpp:311-322 | the result is the computed item; a filled slot is returned with nothing changed; an unfilled one is computed and stored; no other slot changes, so the dataset changes only by filling a sentinel slot with its item, and the context stays ready |
| `HashKernel.HashSeed` | src/meraki/meraki/meraki.cpp:260-268 | Keccak-512 of the 40 bytes that hold the header hash and then the nonce in little-endian order; both read back from those bytes (`SeedInputLayout`), so distinct (header, nonce) pairs hash distinct inputs (`SeedInputInjective`) |
| `HashKernel.HashFinal` | src/meraki/meraki/meraki.cpp:270-276 | Keccak-256 of the 96 bytes that read back as the seed followed by the mix hash (`FinalInputLayout`), so distinct (seed, mix hash) pairs hash distinct inputs (`FinalInputInjective`) |
| `HashKernel.SeedInputLayout` | src/meraki/meraki/meraki.cpp:260-268 | the header hash and the nonce can be read back from the 40 bytes `hash_seed` absorbs |
| `HashKernel.SeedInputInjective` | src/meraki/meraki/meraki.cpp:260-268 | distinct (header, nonce) pairs give distinct seed inputs |
| `HashKernel.FinalInputLayout` | src/meraki/meraki/meraki.cpp:270-276 | read as words, the 96 bytes `hash_final` absorbs are the seed followed by the mix hash |
| `HashKernel.FinalInputInjective` | src/meraki/meraki/meraki.cpp:270-276 | distinct (seed, mix hash) pairs give distinct final inputs |
| `HashKernel.AccessIndex` | src/meraki/meraki/meraki.cpp:289 | every access index is below `full_dataset_num_items` |
| `HashKernel.HashKernelMix` | src/meraki/meraki/meraki.cpp:278-306 | the kernel returns the compressed mix after all accesses, the same with either lookup; the lazy one leaves the context ready, and every dataset slot keeps its value or goes from a sentinel to its item |
| `HashKernel.KernelAccess` | src/meraki/meraki/meraki.cpp:287-294 | access i turns the mix after i accesses into the mix after i+1; with the lazy lookup the dataset still differs from its state at the kernel's entry only by sentinel slots filled with their items |
| `HashKernel.Lookup` | src/meraki/meraki/meraki.cpp:290 | both lookups the kernel is given return the full-dataset item; the lazy one changes the dataset only by filling sentinel slots with their items |
| `HashKernel.CompressMix` | src/meraki/meraki/meraki.cpp:296-303 | word k of the mix hash is `fnv1(fnv1(fnv1(m[4k], m[4k+1]), m[4k+2]), m[4k+3])` |
| `HashKernel.MerakiHash` | src/meraki/meraki/meraki.cpp:419-425 | the light hash returns the final hash and the mix hash of the header and nonce |
| `HashKernel.Hash` | src/meraki/meraki/meraki.cpp:309-327 | the full hash with the lazy lookup returns the same result as the light hash, keeps the context ready, and changes the dataset only by filling sentinel slots with their items: a computed slot keeps its value |
| `SearchVerify.EndNonce` | src/meraki/meraki/meraki.cpp:332 | the end nonce is start + iterations when that fits in 64 bits, and otherwise wraps below start |
| `SearchVerify.SearchLight` | src/meraki/meraki/meraki.cpp:329-340 | the result is the first nonce of [start, end) whose final hash meets the boundary, with its hash, or none when no nonce of the range does |
| `SearchVerify.Search` | src/meraki/meraki/meraki.cpp:342-353 | the same first-hit promise on a full context, which stays ready; the search changes the dataset only by filling sentinel slots with their items |
| `SearchVerify.TryNonce` | src/meraki/meraki/meraki.cpp:348-350 | one iteration returns the nonce's hash and whether it meets the boundary, leaves the light cache as it was, and changes the dataset only by filling sentinel slots with their items |
| `SearchVerify.SearchRangesCompose` | src/meraki/meraki/meraki.cpp:329-340 | a search with no solution, followed by a search from where it ended, answers as one search over both ranges |
| `SearchVerify.VerifyFinalHash` | src/meraki/meraki/meraki.cpp:427-432 | whether the final hash recomputed from the seed and the claimed mix hash meets the boundary; on the mix hash `meraki_hash` computes for any light cache, exactly the search's solution test |
| `SearchVerify.FirstSolutionUnique` | src/meraki/meraki/meraki.cpp:329-353 | the first-hit promise has one answer per header, boundary and range, so `search_light` and `search` return the same result |
| `SearchVerify.MerakiVerify` | src/meraki/meraki/meraki.cpp:434-443 | false when the final-hash check fails; otherwise whether the kernel's mix hash equals the claimed one |
| `SearchVerify.VerifyImpliesFinalHash` | src/meraki/meraki/meraki.cpp:427-443 | `meraki_verify` accepts only what `meraki_verify_final_hash` accepts |
| `SearchVerify.VerifyMeansHash` | src/meraki/meraki/meraki.cpp:419-443 | when `is_equal` is equality, `meraki_verify` accepts exactly the mix hash `meraki_hash` computes, for a nonce whose final hash meets the boundary |
| `SearchVerify.VerifyRoundTrip` | src/meraki/meraki/meraki.cpp:419-443 | verifying the mix hash `meraki_hash` produced gives the boundary check of its final hash |
| `SearchVerify.SolutionVerifies` | src/meraki/meraki/meraki.cpp:342-353 | every solution a search returns verifies |
| `LightVerify.InitialStateIsSeedInput` | src/meraki/meraki/meraki.cpp:472-482 | the first 10 words of the first state are the 40 bytes of `hash_seed`, and the tag fills the other 15 |
| `LightVerify.InitialStateNonce` | src/meraki/meraki/meraki.cpp:472-478 | the header hash and the nonce can be read back from the first state |
| `LightVerify.FinalStateInjective` | src/meraki/meraki/meraki.cpp:490-504 | the carried words and the mix hash can be read back from the last state |
| `LightVerify.KeccakF800InPlace` | src/meraki/meraki/meraki.cpp:484 | the state array is replaced by its permutation |
| `LightVerify.AbsorbInitial` | src/meraki/meraki/meraki.cpp:469-482 | the first state is the header hash, the nonce's low and high halves, then the 15 tag words |
| `LightVerify.AbsorbFinal` | src/meraki/meraki/meraki.cpp:490-504 | the last state is the 8 carried words, the mix hash, then the first 9 tag words |
| `LightVerify.CopyWords` | src/meraki/meraki/meraki.cpp:473-474 | a copy loop replaces the words it covers with the source and keeps the others |
| `LightVerify.LightVerifyHash` | src/meraki/meraki/meraki.cpp:464-514 | the output is the first 8 words of the second permutation of (first 8 words of the first permutation, mix hash, tag) |

## Left out

- Keccak-256, Keccak-512 and Keccak-f[800] are parameters. Their wrappers (`keccak.hpp`) are not part of this model, and neither is the Keccak padding.
- The scalar `fnv1`, `is_less_or_equal`, `is_equal` and `num_dataset_accesses` are defined outside the core, so they are parameters too.
- `meraki_find_largest_prime` has no body in the source, only its documented contract. `Primes.FindLargestPrime` is a trial-division search that meets that contract.
- The context is one `calloc` block built with placement `new` and `reinterpret_cast`. The model keeps the light cache, the L1 buffer and the full dataset as separate arrays. The aliasing of the L1 buffer with the first 128 full-dataset slots is a relation (`EpochContexts.L1AliasesFullDataset`), not shared memory.
- For the same reason, the byte-size computation of the block is left out: `get_light_cache_size` and `alloc_size`.
- A failed allocation is a nondeterministic choice to return null.
- `meraki_destroy_epoch_context`, `meraki_destroy_epoch_context_full` and `free` are left out: the model has no deallocation.
- `meraki_create_epoch_context` and `meraki_create_epoch_context_full` are not modelled on their own. They are `CreateEpochContext` with `full` false or true and the Keccak-512 builder.
- The `thread_local` cache of `find_epoch_number` is the state of one `EpochNumberCache` object.
- The lazy fill of the full dataset is modelled single-threaded. Concurrent redundant fills are not modelled.
- `le::uint32` and `le::uint32s` are the identity: the model assumes a little-endian host and gives hash values a little-endian byte view.
- `search_light` calls a light `hash` overload whose declaration is not part of this model. It is modelled as `meraki_hash`, which computes every item it reads.
- The `int64_t` index of `item_state` is a `nat`: every caller passes a non-negative index.
- The `size_t` iteration count of the searches is a 64-bit value.
- `ContextCreation.CreateEpochContext`: requires an epoch in -31 .. 8159. Outside that range the source takes a remainder by a zero light-cache count or overflows `int`, and the model does not describe that behaviour.
- `EpochSizing.LightCacheNumItems` and `EpochSizing.FullDatasetNumItems`: require the `int` computation of the bound not to overflow. Signed overflow has no defined result in the source.
