/** The dataset item generator: item_state, whose mix is updated in place
    round by round, and calculate_dataset_item_512/1024/2048, which run 1, 2
    or 4 item states interleaved. */
module DatasetItems {
  import opened HashTypes
  import opened DatasetSpec
  import opened EpochContexts

  class ItemState {
    const prims: Primitives
    /** The light cache, read-only while the state is in use. */
    const cache: seq<Hash512>
    const numCacheItems: int
    const seed: Word
    /** The index the state computes; ghost, the source keeps only the seed. */
    ghost const index: nat
    var mix: Hash512

    /** The fields the constructor sets. */
    ghost predicate Valid()
    {
      && 0 < numCacheItems == |cache|
      && seed == ItemSeed(index)
    }

    /** The mix is the item's mix after rounds 0 .. j-1. */
    ghost predicate MixedTo(j: Word)
      reads this
    {
      && Valid()
      && j <= FullDatasetItemParents
      && mix == ItemMix(prims, cache, index, j)
    }

    /** Sets up the state of item index: light-cache item index mod n, its
        first word xored with the seed, hashed. */
    constructor (ctx: EpochContext, index: nat)
      requires ctx.Valid()
      ensures MixedTo(0)
      ensures prims == ctx.prims && cache == ctx.Cache() && this.index == index
    {
      prims := ctx.prims;
      cache := ctx.Cache();
      numCacheItems := ctx.lightCacheNumItems;
      seed := ItemSeed(index);
      this.index := index;
      new;
      var m := cache[index % numCacheItems];
      m := m[0 := m[0] ^ seed];
      mix := prims.keccak512(Bytes(m));
    }

    /** Update round `round`, which is the next round of the item. */
    method Update(round: Word)
      requires MixedTo(round) && round < FullDatasetItemParents
      modifies this
      ensures MixedTo(round + 1)
    {
      var parentIndex := ParentIndex(prims.fnv1, numCacheItems, seed, round, mix);
      mix := Fnv1Mix(prims.fnv1, mix, cache[parentIndex]);
    }

    /** The item: the final mix hashed. */
    method Final() returns (r: Hash512)
      requires MixedTo(FullDatasetItemParents)
      ensures r == Item512(prims, cache, index)
    {
      r := prims.keccak512(Bytes(mix));
    }
  }

  /** calculate_dataset_item_512. */
  method CalculateDatasetItem512(ctx: EpochContext, index: nat) returns (r: Hash512)
    requires ctx.Valid()
    ensures r == ctx.ItemFn()(index)
  {
    var item0 := new ItemState(ctx, index);
    var j: Word := 0;
    while j < FullDatasetItemParents
      invariant j <= FullDatasetItemParents
      decreases FullDatasetItemParents - j
      invariant item0.MixedTo(j)
    {
      item0.Update(j);
      j := j + 1;
    }
    r := item0.Final();
  }

  /** calculate_dataset_item_1024: items 2i and 2i+1 computed interleaved
      are the two independently computed 512-bit items side by side. */
  method CalculateDatasetItem1024(ctx: EpochContext, index: U32) returns (r: Hash1024)
    requires ctx.Valid()
    ensures r == Item1024Of(ctx.ItemFn(), index)
  {
    var item0 := new ItemState(ctx, 2 * index);
    var item1 := new ItemState(ctx, 2 * index + 1);
    var j: Word := 0;
    while j < FullDatasetItemParents
      invariant j <= FullDatasetItemParents
      decreases FullDatasetItemParents - j
      invariant item0.MixedTo(j) && item1.MixedTo(j)
    {
      item0.Update(j);
      item1.Update(j);
      j := j + 1;
    }
    var h0: seq<Word> := item0.Final();
    var h1: seq<Word> := item1.Final();
    r := h0 + h1;
  }

  /** calculate_dataset_item_2048: four interleaved items. */
  method CalculateDatasetItem2048(ctx: EpochContext, index: U32) returns (r: Hash2048)
    requires ctx.Valid()
    ensures r == Item2048Of(ctx.ItemFn(), index)
  {
    var item0 := new ItemState(ctx, 4 * index);
    var item1 := new ItemState(ctx, 4 * index + 1);
    var item2 := new ItemState(ctx, 4 * index + 2);
    var item3 := new ItemState(ctx, 4 * index + 3);
    var j: Word := 0;
    while j < FullDatasetItemParents
      invariant j <= FullDatasetItemParents
      decreases FullDatasetItemParents - j
      invariant item0.MixedTo(j) && item1.MixedTo(j) && item2.MixedTo(j) && item3.MixedTo(j)
    {
      UpdateFour(item0, item1, item2, item3, j);
      j := j + 1;
    }
    var h0: seq<Word> := item0.Final();
    var h1: seq<Word> := item1.Final();
    var h2: seq<Word> := item2.Final();
    var h3: seq<Word> := item3.Final();
    Item2048Parts(ctx.ItemFn(), index, h0, h1, h2, h3);
    r := h0 + h1 + h2 + h3;
  }

  method UpdateFour(item0: ItemState, item1: ItemState, item2: ItemState, item3: ItemState, j: Word)
    requires item0 != item1 && item0 != item2 && item0 != item3 && item1 != item2 && item1 != item3 && item2 != item3
    requires j < FullDatasetItemParents
    requires item0.MixedTo(j) && item1.MixedTo(j) && item2.MixedTo(j) && item3.MixedTo(j)
    modifies item0, item1, item2, item3
    ensures item0.MixedTo(j + 1) && item1.MixedTo(j + 1) && item2.MixedTo(j + 1) && item3.MixedTo(j + 1)
  {
    item0.Update(j);
    item1.Update(j);
    item2.Update(j);
    item3.Update(j);
  }
}
