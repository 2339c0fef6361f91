/** The light cache builder (generic::build_light_cache): a hash chain
    followed by three rounds of in-place mixing. The hash function is a
    parameter, as in the source. */
module LightCache {
  import opened Arithmetic
  import opened HashTypes

  const LightCacheRounds := 3

  /** The (i+1)-fold application of hashFn to the seed. */
  function ChainItem(hashFn: seq<Byte> -> Hash512, seed: Hash256, i: nat): Hash512
  {
    if i == 0 then hashFn(Bytes(seed)) else hashFn(Bytes(ChainItem(hashFn, seed, i - 1)))
  }

  function Chain(hashFn: seq<Byte> -> Hash512, seed: Hash256, n: nat): (c: seq<Hash512>)
    ensures |c| == n
  {
    seq(n, i requires 0 <= i < n => ChainItem(hashFn, seed, i))
  }

  /** The two items that mixing step i reads: v from the first word of item
      i, w the predecessor of i, wrapping around to the last item. */
  function MixIndices(c: seq<Hash512>, i: int): (vw: (nat, nat))
    requires 0 <= i < |c|
    ensures vw.0 < |c| && vw.1 < |c|
    ensures vw.0 == (c[i][0] as int) % |c|
    ensures i == 0 ==> vw.1 == |c| - 1
    ensures i > 0 ==> vw.1 == i - 1
  {
    var n := |c|;
    ModUnique(n + (i - 1), n, if i == 0 then 0 else 1, if i == 0 then n - 1 else i - 1);
    ((c[i][0] as int) % n, (n + (i - 1)) % n)
  }

  /** Mixing step i: item i becomes the hash of the xor of items v and w. */
  function MixStep(hashFn: seq<Byte> -> Hash512, c: seq<Hash512>, i: int): (r: seq<Hash512>)
    requires 0 <= i < |c|
    ensures |r| == |c|
  {
    var (v, w) := MixIndices(c, i);
    c[i := hashFn(Bytes(Xor512(c[v], c[w])))]
  }

  /** The first i steps of one round, applied in order to the same sequence. */
  function MixPrefix(hashFn: seq<Byte> -> Hash512, c: seq<Hash512>, i: nat): (r: seq<Hash512>)
    requires i <= |c|
    ensures |r| == |c|
  {
    if i == 0 then c else MixStep(hashFn, MixPrefix(hashFn, c, i - 1), i - 1)
  }

  function Round(hashFn: seq<Byte> -> Hash512, c: seq<Hash512>): (r: seq<Hash512>)
    ensures |r| == |c|
  {
    MixPrefix(hashFn, c, |c|)
  }

  function Rounds(hashFn: seq<Byte> -> Hash512, c: seq<Hash512>, q: nat): (r: seq<Hash512>)
    ensures |r| == |c|
  {
    if q == 0 then c else Round(hashFn, Rounds(hashFn, c, q - 1))
  }

  /** How many items the builder writes: num_items, but at least item 0. */
  function BuiltItems(numItems: int): nat
  {
    if numItems < 1 then 1 else numItems
  }

  /** The finished light cache. */
  function LightCacheItems(hashFn: seq<Byte> -> Hash512, seed: Hash256, numItems: int): (c: seq<Hash512>)
    ensures |c| == BuiltItems(numItems)
  {
    if numItems < 1 then Chain(hashFn, seed, 1)
    else Rounds(hashFn, Chain(hashFn, seed, numItems), LightCacheRounds)
  }

  // ---------------------------------------------------------------------
  // What one round does

  /** Steps before k leave item k as it was. */
  lemma {:induction false} MixPrefixKeepsLater(hashFn: seq<Byte> -> Hash512, c: seq<Hash512>, i: nat, k: nat)
    requires i <= k < |c|
    ensures MixPrefix(hashFn, c, i)[k] == c[k]
  {
    if i > 0 {
      MixPrefixKeepsLater(hashFn, c, i - 1, k);
    }
  }

  /** Item k is final for the round once step k has run. */
  lemma {:induction false} MixPrefixKeepsEarlier(hashFn: seq<Byte> -> Hash512, c: seq<Hash512>, k: nat, j: nat)
    requires k < j <= |c|
    ensures MixPrefix(hashFn, c, j)[k] == MixPrefix(hashFn, c, k + 1)[k]
  {
    if j > k + 1 {
      MixPrefixKeepsEarlier(hashFn, c, k, j - 1);
    }
  }

  /** Item i of a round: v is taken from the round's input item i, while w
      reads item i-1 already updated in this round, or for i == 0 the last
      item not yet updated. */
  lemma RoundItem(hashFn: seq<Byte> -> Hash512, c: seq<Hash512>, i: nat)
    requires i < |c|
    ensures var v := MixIndices(c, i).0;
            var p := MixPrefix(hashFn, c, i);
            Round(hashFn, c)[i] ==
              hashFn(Bytes(Xor512(p[v], if i == 0 then c[|c| - 1] else Round(hashFn, c)[i - 1])))
  {
    var p := MixPrefix(hashFn, c, i);
    if i + 1 < |c| {
      MixPrefixKeepsEarlier(hashFn, c, i, |c|);
    }
    MixPrefixKeepsLater(hashFn, c, i, i);
    if i == 0 {
      MixPrefixKeepsLater(hashFn, c, 0, |c| - 1);
    } else {
      MixPrefixKeepsEarlier(hashFn, c, i - 1, |c|);
    }
  }

  // ---------------------------------------------------------------------
  // The builder

  /** build_light_cache: the hash chain, then LightCacheRounds rounds of
      mixing, all in place in cache. */
  method BuildLightCache(hashFn: seq<Byte> -> Hash512, cache: array<Hash512>, numItems: int, seed: Hash256)
    requires 1 <= cache.Length && numItems <= cache.Length
    modifies cache
    ensures cache[..BuiltItems(numItems)] == LightCacheItems(hashFn, seed, numItems)
    ensures cache[BuiltItems(numItems)..] == old(cache[BuiltItems(numItems)..])
  {
    BuildChain(hashFn, cache, numItems, seed);
    ghost var n := BuiltItems(numItems);
    ghost var chain := cache[..n];
    var q := 0;
    while q < LightCacheRounds
      invariant 0 <= q <= LightCacheRounds
      invariant numItems < 1 ==> cache[..n] == chain
      invariant numItems >= 1 ==> cache[..n] == Rounds(hashFn, chain, q)
      invariant cache[n..] == old(cache[n..])
    {
      if numItems >= 1 {  // otherwise the round visits no item
        MixRound(hashFn, cache, numItems);
      }
      q := q + 1;
    }
  }

  /** The first part of the builder: item 0 is the hash of the seed, each
      later item the hash of its predecessor. */
  method BuildChain(hashFn: seq<Byte> -> Hash512, cache: array<Hash512>, numItems: int, seed: Hash256)
    requires 1 <= cache.Length && numItems <= cache.Length
    modifies cache
    ensures cache[..BuiltItems(numItems)] == Chain(hashFn, seed, BuiltItems(numItems))
    ensures cache[BuiltItems(numItems)..] == old(cache[BuiltItems(numItems)..])
  {
    ghost var n := BuiltItems(numItems);
    var item := hashFn(Bytes(seed));
    cache[0] := item;
    var i := 1;
    while i < numItems
      invariant 1 <= i <= n
      invariant item == ChainItem(hashFn, seed, i - 1)
      invariant cache[..i] == Chain(hashFn, seed, i)
      invariant cache[n..] == old(cache[n..])
    {
      item := hashFn(Bytes(item));
      cache[i] := item;
      assert cache[..i + 1] == cache[..i] + [item];
      i := i + 1;
    }
  }

  /** One mixing round over cache[0..numItems), in place. */
  method MixRound(hashFn: seq<Byte> -> Hash512, cache: array<Hash512>, numItems: int)
    requires 1 <= numItems <= cache.Length
    modifies cache
    ensures cache[..numItems] == Round(hashFn, old(cache[..numItems]))
    ensures forall k :: numItems <= k < cache.Length ==> cache[k] == old(cache[k])
  {
    ghost var start := cache[..numItems];
    var i := 0;
    while i < numItems
      invariant 0 <= i <= numItems
      invariant cache[..numItems] == MixPrefix(hashFn, start, i)
      invariant forall k :: numItems <= k < cache.Length ==> cache[k] == old(cache[k])
    {
      MixItem(hashFn, cache, numItems, i);
      assert cache[..numItems] == MixPrefix(hashFn, start, i + 1);
      i := i + 1;
    }
  }

  /** The body of the round's loop: step i, in place. */
  method MixItem(hashFn: seq<Byte> -> Hash512, cache: array<Hash512>, numItems: int, i: int)
    requires 0 <= i < numItems <= cache.Length
    modifies cache
    ensures cache[..numItems] == MixStep(hashFn, old(cache[..numItems]), i)
    ensures forall k :: numItems <= k < cache.Length ==> cache[k] == old(cache[k])
  {
    ghost var before := cache[..numItems];
    var indexLimit := numItems;
    // First index: the first word of the item, read little-endian.
    var t := cache[i][0];
    var v := (t as int) % indexLimit;
    // Second index: the predecessor, wrapping around.
    var w := (numItems + (i - 1)) % indexLimit;
    assert (v, w) == MixIndices(before, i);
    var x := BitwiseXor(cache[v], cache[w]);
    cache[i] := hashFn(Bytes(x));
    assert cache[..numItems] == before[i := hashFn(Bytes(x))];
  }
}
