/** What a dataset item is (item_state, calculate_dataset_item_512/1024/2048
    in src/meraki/meraki/meraki.cpp), as functions of the light cache
    contents. */
module DatasetSpec {
  import opened HashTypes

  /** How many light-cache parents are folded into each 512-bit item. */
  const FullDatasetItemParents: Word := 512

  /** The seed of an item: the low 32 bits of its index. */
  function ItemSeed(index: nat): Word
  {
    Low32(index)
  }

  /** The mix an item starts from: light-cache item index mod n, its first
      word xored with the seed, hashed with Keccak-512. */
  function ItemInitMix(p: Primitives, cache: seq<Hash512>, index: nat): Hash512
    requires |cache| > 0
  {
    var m := cache[index % |cache|];
    p.keccak512(Bytes(m[0 := m[0] ^ ItemSeed(index)]))
  }

  /** The light-cache parent read by one update round. */
  function ParentIndex(fnv1: (Word, Word) -> Word, n: int, seed: Word, round: Word, mix: Hash512): (r: nat)
    requires n > 0
    ensures r < n
  {
    (fnv1(seed ^ round, mix[(round as int) % 16]) as int) % n
  }

  /** One update round: the mix FNV-mixed word by word with its parent. */
  function ItemUpdate(p: Primitives, cache: seq<Hash512>, seed: Word, round: Word, mix: Hash512): Hash512
    requires |cache| > 0
  {
    Fnv1From(p.fnv1, mix, cache[ParentIndex(p.fnv1, |cache|, seed, round, mix)], 0)
  }

  /** The mix of item index after rounds 0 .. j-1. */
  function ItemMix(p: Primitives, cache: seq<Hash512>, index: nat, j: Word): Hash512
    requires |cache| > 0 && j <= FullDatasetItemParents
    // Only j decreases; index is listed too, so that a call with literal
    // arguments does not unroll all 512 rounds in the solver.
    decreases index, j as int
  {
    if j == 0 then ItemInitMix(p, cache, index)
    else ItemUpdate(p, cache, ItemSeed(index), j - 1, ItemMix(p, cache, index, j - 1))
  }

  /** A 512-bit dataset item: the final mix hashed with Keccak-512. */
  function Item512(p: Primitives, cache: seq<Hash512>, index: nat): Hash512
    requires |cache| > 0
  {
    p.keccak512(Bytes(ItemMix(p, cache, index, FullDatasetItemParents)))
  }

  /** All 512-bit items of the epoch, indexed. */
  function Items(p: Primitives, cache: seq<Hash512>): nat -> Hash512
    requires |cache| > 0
  {
    k => Item512(p, cache, k)
  }

  /** The 1024-bit item index of a sequence of 512-bit items: items 2i
      and 2i+1 side by side. */
  function Item1024Of(item: nat -> Hash512, index: nat): Hash1024
  {
    item(2 * index) + item(2 * index + 1)
  }

  /** The 2048-bit item index: items 4i .. 4i+3 side by side. */
  function Item2048Of(item: nat -> Hash512, index: nat): Hash2048
  {
    item(4 * index) + item(4 * index + 1) + item(4 * index + 2) + item(4 * index + 3)
  }

  /** Four 512-bit items side by side form the 2048-bit item. */
  lemma Item2048Parts(item: nat -> Hash512, index: nat, h0: seq<Word>, h1: seq<Word>, h2: seq<Word>, h3: seq<Word>)
    requires h0 == item(4 * index) && h1 == item(4 * index + 1)
    requires h2 == item(4 * index + 2) && h3 == item(4 * index + 3)
    ensures h0 + h1 + h2 + h3 == Item2048Of(item, index)
  {
  }

  // ---------------------------------------------------------------------
  // Properties

  /** Only the low 32 bits of the index reach the seed: items index and
      index + 2^32 share their seed, whose bytes denote index mod 2^32. */
  lemma ItemSeedLow32(index: nat)
    ensures ItemSeed(index + 0x1_0000_0000) == ItemSeed(index)
    ensures LeValue(WordBytes(ItemSeed(index))) == index % 0x1_0000_0000
  {
    Low32Periodic(index);
    Low32Value(index);
  }

  /** A 2048-bit item is two consecutive 1024-bit items. */
  lemma Item2048Halves(item: nat -> Hash512, index: nat)
    ensures Item2048Of(item, index) == Item1024Of(item, 2 * index) + Item1024Of(item, 2 * index + 1)
  {
    var k := 2 * index;
    assert 2 * k == 4 * index;
    assert 2 * k + 2 == 4 * index + 2;
  }

  /** Word w of the buffer of 2048-bit items is word w of the buffer of
      1024-bit items: the L1 region holds the first full-dataset items. */
  lemma L1WordIsItem1024(item: nat -> Hash512, w: nat)
    ensures Item2048Of(item, w / 64)[w % 64] == Item1024Of(item, w / 32)[w % 32]
  {
    var i, j := w / 64, w % 64;
    assert w / 32 == 2 * i + j / 32 && w % 32 == j % 32;
    Item2048Halves(item, i);
    var h0: seq<Word>, h1: seq<Word> := Item1024Of(item, 2 * i), Item1024Of(item, 2 * i + 1);
    assert (h0 + h1)[j] == if j < 32 then h0[j] else h1[j - 32];
  }
}
