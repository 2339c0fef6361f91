/** Recovery of an epoch number from its seed (find_epoch_number). The
    thread-local cache of the last answer is the state of an object. */
module EpochLookup {
  import opened HashTypes
  import opened EpochSizing

  /** How many epochs the fallback search tries. */
  const NumTries := 30000

  /** e is the first epoch below NumTries whose seed begins with the word seedPart. */
  ghost predicate IsFirstMatch(keccak256: seq<Byte> -> Hash256, seedPart: Word, e: int)
  {
    && 0 <= e < NumTries
    && EpochSeed(keccak256, e)[0] == seedPart
    && forall i :: 0 <= i < e ==> EpochSeed(keccak256, i)[0] != seedPart
  }

  class EpochNumberCache {
    const keccak256: seq<Byte> -> Hash256
    var cachedEpochNumber: int
    var cachedSeed: Hash256

    /** The cached seed is the seed of the cached epoch. */
    ghost predicate Valid()
      reads this
    {
      cachedEpochNumber >= 0 && cachedSeed == EpochSeed(keccak256, cachedEpochNumber)
    }

    constructor (keccak256: seq<Byte> -> Hash256)
      ensures this.keccak256 == keccak256 && Valid()
      ensures cachedEpochNumber == 0 && cachedSeed == Zeros(8)
    {
      this.keccak256 := keccak256;
      cachedEpochNumber := 0;
      cachedSeed := Zeros(8);
    }

    /** Only the first 32-bit word of seed is compared. The answer is the
        cached epoch, else the next one, else the first match of a linear
        search from epoch 0, else -1. */
    method FindEpochNumber(seed: Hash256) returns (epochNumber: int)
      requires Valid()
      modifies this
      ensures Valid()
      ensures epochNumber >= 0 ==> EpochSeed(keccak256, epochNumber)[0] == seed[0]
      ensures old(cachedSeed)[0] == seed[0] ==>
        epochNumber == old(cachedEpochNumber) && unchanged(this)
      ensures old(cachedSeed)[0] != seed[0] && keccak256(Bytes(old(cachedSeed)))[0] == seed[0] ==>
        && epochNumber == old(cachedEpochNumber) + 1
        && cachedEpochNumber == epochNumber
        && cachedSeed == keccak256(Bytes(old(cachedSeed)))
      ensures old(cachedSeed)[0] != seed[0] && keccak256(Bytes(old(cachedSeed)))[0] != seed[0] ==>
        if exists i :: IsFirstMatch(keccak256, seed[0], i) then
          && IsFirstMatch(keccak256, seed[0], epochNumber)
          && cachedEpochNumber == epochNumber
          && cachedSeed == EpochSeed(keccak256, epochNumber)
        else
          epochNumber == -1 && unchanged(this)
    {
      var seedPart := seed[0];
      var e := cachedEpochNumber;
      var s := cachedSeed;

      if s[0] == seedPart {
        return e;
      }

      // The next seed matches when epochs are accessed in sequence.
      s := keccak256(Bytes(s));
      if s[0] == seedPart {
        cachedSeed := s;
        cachedEpochNumber := e + 1;
        return e + 1;
      }

      var found;
      found, s := FirstMatch(seedPart);
      if found >= 0 {
        cachedSeed := s;
        cachedEpochNumber := found;
        return found;
      }
      assert forall j :: !IsFirstMatch(keccak256, seedPart, j);
      return -1;
    }

    /** The fallback: a linear search over epochs 0 .. NumTries-1, each seed
        computed from the previous one. */
    method FirstMatch(seedPart: Word) returns (e: int, s: Hash256)
      ensures e >= 0 ==> IsFirstMatch(keccak256, seedPart, e) && s == EpochSeed(keccak256, e)
      ensures e < 0 ==> e == -1 && forall j :: 0 <= j < NumTries ==> EpochSeed(keccak256, j)[0] != seedPart
    {
      s := Zeros(8);
      var i := 0;
      while i < NumTries
        invariant 0 <= i <= NumTries
        invariant s == EpochSeed(keccak256, i)
        invariant forall j :: 0 <= j < i ==> EpochSeed(keccak256, j)[0] != seedPart
      {
        if s[0] == seedPart {
          return i, s;
        }
        s := keccak256(Bytes(s));
        i := i + 1;
      }
      return -1, s;
    }
  }
}
