/** Nonce search (search_light, search) and proof-of-work verification
    (meraki_verify_final_hash, meraki_verify). */
module SearchVerify {
  import opened HashTypes
  import opened EpochContexts
  import opened HashKernel

  /** start_nonce + iterations in `uint64_t`: it wraps around modulo 2^64,
      and a wrapped end makes the search range empty. */
  function EndNonce(startNonce: U64, iterations: U64): (e: U64)
    ensures startNonce + iterations < 0x1_0000_0000_0000_0000 ==> e == startNonce + iterations
    ensures startNonce + iterations >= 0x1_0000_0000_0000_0000 ==> e < startNonce
  {
    (startNonce + iterations) % 0x1_0000_0000_0000_0000
  }

  /** The nonce meets the boundary. */
  predicate IsSolution(p: Primitives, cache: seq<Hash512>, n: int, headerHash: Hash256, boundary: Hash256, nonce: U64)
    requires |cache| > 0 && 0 < n < 0x1_0000_0000
  {
    p.isLessOrEqual(HashOf(p, cache, n, headerHash, nonce).finalHash, boundary)
  }

  /** No nonce of [lo, hi) meets the boundary. */
  ghost predicate NoSolutionIn(p: Primitives, cache: seq<Hash512>, n: int, headerHash: Hash256, boundary: Hash256,
                               lo: int, hi: int)
    requires |cache| > 0 && 0 < n < 0x1_0000_0000
  {
    forall m: U64 :: lo <= m < hi ==> !IsSolution(p, cache, n, headerHash, boundary, m)
  }

  /** A nonce that does not meet the boundary extends such a range by one. */
  lemma NoSolutionExtend(p: Primitives, cache: seq<Hash512>, n: int, headerHash: Hash256, boundary: Hash256,
                         lo: int, hi: U64)
    requires |cache| > 0 && 0 < n < 0x1_0000_0000
    requires NoSolutionIn(p, cache, n, headerHash, boundary, lo, hi)
    requires !IsSolution(p, cache, n, headerHash, boundary, hi)
    ensures NoSolutionIn(p, cache, n, headerHash, boundary, lo, hi + 1)
  {
  }

  datatype SearchResult = NoSolution | Solution(result: HashResult, nonce: U64)

  /** The search's promise: a solution is the first nonce of [start, end)
      that meets the boundary, with its hash; no solution means that no
      nonce of the range meets it. */
  ghost predicate FirstSolution(p: Primitives, cache: seq<Hash512>, n: int, headerHash: Hash256, boundary: Hash256,
                                startNonce: U64, endNonce: U64, r: SearchResult)
    requires |cache| > 0 && 0 < n < 0x1_0000_0000
  {
    match r
    case Solution(result, nonce) =>
      && startNonce <= nonce < endNonce
      && result == HashOf(p, cache, n, headerHash, nonce)
      && IsSolution(p, cache, n, headerHash, boundary, nonce)
      && NoSolutionIn(p, cache, n, headerHash, boundary, startNonce, nonce)
    case NoSolution =>
      NoSolutionIn(p, cache, n, headerHash, boundary, startNonce, endNonce)
  }

  /** search_light: the nonces from start_nonce on, each hashed with meraki_hash. */
  method SearchLight(ctx: EpochContext, headerHash: Hash256, boundary: Hash256, startNonce: U64, iterations: U64)
    returns (r: SearchResult)
    requires ctx.Valid()
    ensures FirstSolution(ctx.prims, ctx.Cache(), ctx.fullDatasetNumItems, headerHash, boundary,
                          startNonce, EndNonce(startNonce, iterations), r)
  {
    var endNonce := EndNonce(startNonce, iterations);
    ghost var cache := ctx.Cache();
    var nonce := startNonce;
    while nonce < endNonce
      invariant startNonce <= nonce
      invariant NoSolutionIn(ctx.prims, cache, ctx.fullDatasetNumItems, headerHash, boundary, startNonce, nonce)
    {
      var h := MerakiHash(ctx, headerHash, nonce);
      if ctx.prims.isLessOrEqual(h.finalHash, boundary) {
        return Solution(h, nonce);
      }
      NoSolutionExtend(ctx.prims, cache, ctx.fullDatasetNumItems, headerHash, boundary, startNonce, nonce);
      nonce := nonce + 1;
    }
    return NoSolution;
  }

  /** search: the same loop on a full context, whose hash fills the
      dataset slots it reads. */
  method Search(ctx: EpochContext, headerHash: Hash256, boundary: Hash256, startNonce: U64, iterations: U64)
    returns (r: SearchResult)
    requires ctx.Ready() && ctx.fullDataset != null
    modifies ctx.fullDataset
    ensures ctx.Ready()
    ensures FillsOnly(old(ctx.fullDataset[..]), ctx.fullDataset[..], ctx.ItemFn())
    ensures FirstSolution(ctx.prims, ctx.Cache(), ctx.fullDatasetNumItems, headerHash, boundary,
                          startNonce, EndNonce(startNonce, iterations), r)
  {
    var endNonce := EndNonce(startNonce, iterations);
    ghost var cache := ctx.Cache();
    var nonce := startNonce;
    while nonce < endNonce
      invariant startNonce <= nonce
      invariant ctx.Ready() && ctx.Cache() == cache
      invariant FillsOnly(old(ctx.fullDataset[..]), ctx.fullDataset[..], ctx.ItemFn())
      invariant NoSolutionIn(ctx.prims, cache, ctx.fullDatasetNumItems, headerHash, boundary, startNonce, nonce)
    {
      ghost var before := ctx.fullDataset[..];
      var h, found := TryNonce(ctx, headerHash, boundary, nonce);
      FillsOnlyTrans(old(ctx.fullDataset[..]), before, ctx.fullDataset[..], ctx.ItemFn());
      if found {
        return Solution(h, nonce);
      }
      NoSolutionExtend(ctx.prims, cache, ctx.fullDatasetNumItems, headerHash, boundary, startNonce, nonce);
      nonce := nonce + 1;
    }
    return NoSolution;
  }

  /** One iteration of search: hash the nonce on the full context and
      compare the final hash with the boundary. */
  method TryNonce(ctx: EpochContext, headerHash: Hash256, boundary: Hash256, nonce: U64)
    returns (h: HashResult, found: bool)
    requires ctx.Ready() && ctx.fullDataset != null
    modifies ctx.fullDataset
    ensures ctx.Ready() && ctx.Cache() == old(ctx.Cache())
    ensures FillsOnly(old(ctx.fullDataset[..]), ctx.fullDataset[..], ctx.ItemFn())
    ensures h == HashOf(ctx.prims, ctx.Cache(), ctx.fullDatasetNumItems, headerHash, nonce)
    ensures found == IsSolution(ctx.prims, ctx.Cache(), ctx.fullDatasetNumItems, headerHash, boundary, nonce)
  {
    h := Hash(ctx, headerHash, nonce);
    found := ctx.prims.isLessOrEqual(h.finalHash, boundary);
  }

  /** The search's promise determines its answer, so search_light and
      search, which both keep it, return the same result for the same
      header, boundary and range. */
  lemma FirstSolutionUnique(p: Primitives, cache: seq<Hash512>, n: int, headerHash: Hash256,
                            boundary: Hash256, startNonce: U64, endNonce: U64,
                            r1: SearchResult, r2: SearchResult)
    requires |cache| > 0 && 0 < n < 0x1_0000_0000
    requires FirstSolution(p, cache, n, headerHash, boundary, startNonce, endNonce, r1)
    requires FirstSolution(p, cache, n, headerHash, boundary, startNonce, endNonce, r2)
    ensures r1 == r2
  {
  }

  /** Searching from start with count iterations and from start + count on
      covers the same nonces as one search over both ranges. */
  lemma SearchRangesCompose(p: Primitives, cache: seq<Hash512>, n: int, headerHash: Hash256, boundary: Hash256,
                            startNonce: U64, count: U64, more: U64, r: SearchResult)
    requires |cache| > 0 && 0 < n < 0x1_0000_0000
    requires startNonce + count + more < 0x1_0000_0000_0000_0000
    requires FirstSolution(p, cache, n, headerHash, boundary, startNonce, EndNonce(startNonce, count), NoSolution)
    requires FirstSolution(p, cache, n, headerHash, boundary, startNonce + count, EndNonce(startNonce + count, more), r)
    ensures FirstSolution(p, cache, n, headerHash, boundary, startNonce, EndNonce(startNonce, count + more), r)
  {
  }

  // ---------------------------------------------------------------------
  // Verification

  /** meraki_verify_final_hash: the final hash recomputed from the claimed
      mix hash meets the boundary. On the mix hash the kernel computes for
      any light cache, that is exactly the search's solution test. */
  function VerifyFinalHash(p: Primitives, headerHash: Hash256, mixHash: Hash256, nonce: U64, boundary: Hash256): (ok: bool)
    ensures ok == p.isLessOrEqual(HashFinal(p, HashSeed(p, headerHash, nonce), mixHash), boundary)
    ensures forall cache: seq<Hash512>, n: int |
              && |cache| > 0 && 0 < n < 0x1_0000_0000
              && mixHash == HashOf(p, cache, n, headerHash, nonce).mixHash ::
              ok == IsSolution(p, cache, n, headerHash, boundary, nonce)
  {
    p.isLessOrEqual(HashFinal(p, HashSeed(p, headerHash, nonce), mixHash), boundary)
  }

  /** What meraki_verify returns: false as soon as the final-hash check
      fails, and otherwise whether the kernel recomputes the claimed mix hash. */
  function VerifyOf(p: Primitives, cache: seq<Hash512>, n: int, headerHash: Hash256, mixHash: Hash256,
                    nonce: U64, boundary: Hash256): bool
    requires |cache| > 0 && 0 < n < 0x1_0000_0000
  {
    if !VerifyFinalHash(p, headerHash, mixHash, nonce, boundary) then false
    else p.isEqual(MixHashOf(p, cache, n, HashSeed(p, headerHash, nonce)), mixHash)
  }

  /** meraki_verify: the kernel runs only once the final-hash check passed. */
  method MerakiVerify(ctx: EpochContext, headerHash: Hash256, mixHash: Hash256, nonce: U64, boundary: Hash256)
    returns (ok: bool)
    requires ctx.Valid()
    ensures ok == VerifyOf(ctx.prims, ctx.Cache(), ctx.fullDatasetNumItems, headerHash, mixHash, nonce, boundary)
  {
    var seed := HashSeed(ctx.prims, headerHash, nonce);
    if !ctx.prims.isLessOrEqual(HashFinal(ctx.prims, seed, mixHash), boundary) {
      return false;
    }
    var expectedMixHash := HashKernelMix(ctx, seed, false);
    ok := ctx.prims.isEqual(expectedMixHash, mixHash);
  }

  /** A verified proof of work passes the final-hash check. */
  lemma VerifyImpliesFinalHash(p: Primitives, cache: seq<Hash512>, n: int, headerHash: Hash256, mixHash: Hash256,
                               nonce: U64, boundary: Hash256)
    requires |cache| > 0 && 0 < n < 0x1_0000_0000
    ensures VerifyOf(p, cache, n, headerHash, mixHash, nonce, boundary) ==>
              VerifyFinalHash(p, headerHash, mixHash, nonce, boundary)
  {
  }

  /** When is_equal is equality, meraki_verify accepts exactly the mix hash
      meraki_hash computes, for a nonce whose final hash meets the boundary. */
  lemma VerifyMeansHash(p: Primitives, cache: seq<Hash512>, n: int, headerHash: Hash256, mixHash: Hash256,
                        nonce: U64, boundary: Hash256)
    requires |cache| > 0 && 0 < n < 0x1_0000_0000
    requires forall a, b :: p.isEqual(a, b) <==> a == b
    ensures VerifyOf(p, cache, n, headerHash, mixHash, nonce, boundary) <==>
              && mixHash == HashOf(p, cache, n, headerHash, nonce).mixHash
              && IsSolution(p, cache, n, headerHash, boundary, nonce)
  {
  }

  /** Round trip: verifying the mix hash meraki_hash produced gives the
      boundary check of its final hash. */
  lemma VerifyRoundTrip(p: Primitives, cache: seq<Hash512>, n: int, headerHash: Hash256, nonce: U64, boundary: Hash256)
    requires |cache| > 0 && 0 < n < 0x1_0000_0000
    requires forall a :: p.isEqual(a, a)
    ensures VerifyOf(p, cache, n, headerHash, HashOf(p, cache, n, headerHash, nonce).mixHash, nonce, boundary)
              == p.isLessOrEqual(HashOf(p, cache, n, headerHash, nonce).finalHash, boundary)
  {
  }

  /** So every solution a search returns verifies. */
  lemma SolutionVerifies(p: Primitives, cache: seq<Hash512>, n: int, headerHash: Hash256, boundary: Hash256,
                         startNonce: U64, endNonce: U64, r: SearchResult)
    requires |cache| > 0 && 0 < n < 0x1_0000_0000
    requires forall a :: p.isEqual(a, a)
    requires r.Solution? && FirstSolution(p, cache, n, headerHash, boundary, startNonce, endNonce, r)
    ensures VerifyOf(p, cache, n, headerHash, r.result.mixHash, r.nonce, boundary)
  {
    VerifyRoundTrip(p, cache, n, headerHash, r.nonce, boundary);
  }
}
