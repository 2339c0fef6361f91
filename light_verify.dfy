/** light_verify: the final hash recomputed from a header hash, a claimed
    mix hash and a nonce with two Keccak-f[800] permutations, as in the
    ProgPoW family, without any dataset access. */
module LightVerify {
  import opened HashTypes
  import opened HashKernel

  /** The 15 input-constraint words (meowcoin_meraki) absorbed after the
      data: one letter of "rAVENCOINKAWPOW" per word, the first in lower case. */
  const MerakiTag: seq<Word> :=
    [0x72, 0x41, 0x56, 0x45, 0x4E, 0x43, 0x4F, 0x49, 0x4E, 0x4B, 0x41, 0x57, 0x50, 0x4F, 0x57]

  /** The state of the first permutation: header hash (8 words), nonce
      (low half, then high half), then the tag. */
  function InitialState(headerHash: Hash256, nonce: U64): State800
  {
    headerHash + [Low32(nonce), Hi32(nonce)] + MerakiTag
  }

  /** The state of the last permutation: 8 words carried over from the
      first, the mix hash, then the first 9 words of the tag. */
  function FinalState(carry: Hash256, mixHash: Hash256): State800
  {
    carry + mixHash + MerakiTag[..9]
  }

  /** What light_verify returns. */
  function LightVerifyOf(f: State800 -> State800, headerHash: Hash256, mixHash: Hash256, nonce: U64): Hash256
  {
    f(FinalState(f(InitialState(headerHash, nonce))[..8], mixHash))[..8]
  }

  /** The first 10 words of the initial state are the 40 bytes hash_seed
      absorbs: the header hash and the nonce in little-endian order. */
  lemma InitialStateIsSeedInput(headerHash: Hash256, nonce: U64)
    ensures Bytes(InitialState(headerHash, nonce)[..10]) == SeedInput(headerHash, nonce)
    ensures InitialState(headerHash, nonce)[10..] == MerakiTag
  {
    var s := InitialState(headerHash, nonce);
    assert s[..10] == headerHash + [Low32(nonce), Hi32(nonce)];
    BytesAppend(headerHash, [Low32(nonce), Hi32(nonce)]);
    assert Bytes([Low32(nonce), Hi32(nonce)]) == WordBytes(Low32(nonce)) + WordBytes(Hi32(nonce)) by {
      assert [Low32(nonce), Hi32(nonce)][1..] == [Hi32(nonce)];
      assert Bytes([Hi32(nonce)]) == WordBytes(Hi32(nonce)) + Bytes([]);
    }
    HalvesAreLe64Bytes(nonce);
  }

  /** So the nonce can be read back from words 8 and 9 of the initial state. */
  lemma InitialStateNonce(headerHash: Hash256, nonce: U64)
    ensures InitialState(headerHash, nonce)[..8] == headerHash
    ensures LeValue(Bytes(InitialState(headerHash, nonce)[..10])[32..]) == nonce
  {
    InitialStateIsSeedInput(headerHash, nonce);
    SeedInputLayout(headerHash, nonce);
  }

  /** The carried words and the mix hash can be read back from the final state. */
  lemma FinalStateInjective(c1: Hash256, m1: Hash256, c2: Hash256, m2: Hash256)
    requires FinalState(c1, m1) == FinalState(c2, m2)
    ensures c1 == c2 && m1 == m2
  {
    assert FinalState(c1, m1)[..8] == c1 && FinalState(c2, m2)[..8] == c2;
    assert FinalState(c1, m1)[8..16] == m1 && FinalState(c2, m2)[8..16] == m2;
  }

  /** meraki_keccakf800: the permutation applied to a state array in place. */
  method KeccakF800InPlace(f: State800 -> State800, state: array<Word>)
    requires state.Length == 25
    modifies state
    ensures state[..] == f(old(state[..]))
  {
    var permuted := f(state[..]);
    forall k | 0 <= k < 25 {
      state[k] := permuted[k];
    }
  }

  /** light_verify, with its local state arrays. */
  method LightVerifyHash(f: State800 -> State800, headerHash: Hash256, mixHash: Hash256, nonce: U64)
    returns (output: Hash256)
    ensures output == LightVerifyOf(f, headerHash, mixHash, nonce)
  {
    var state2 := new Word[8];
    {
      var state := AbsorbInitial(headerHash, nonce);
      KeccakF800InPlace(f, state);
      ghost var permuted := state[..];
      assert permuted == f(InitialState(headerHash, nonce));
      for i := 0 to 8
        invariant forall k :: 0 <= k < i ==> state2[k] == state[k]
        modifies state2
      {
        state2[i] := state[i];
      }
      assert state2[..] == permuted[..8];
    }
    ghost var carry := state2[..];
    var state := AbsorbFinal(state2, mixHash);
    assert state[..] == FinalState(carry, mixHash);
    KeccakF800InPlace(f, state);
    output := Zeros(8);
    for i := 0 to 8
      invariant |output| == 8
      invariant forall k :: 0 <= k < i ==> output[k] == state[k]
    {
      output := output[i := state[i]];
    }
    assert output == state[..8];
  }

  /** The absorb phase of the first permutation. */
  method AbsorbInitial(headerHash: Hash256, nonce: U64) returns (state: array<Word>)
    ensures fresh(state) && state.Length == 25
    ensures state[..] == InitialState(headerHash, nonce)
  {
    state := new Word[25](_ => 0);
    CopyWords(state, 0, headerHash);
    state[8] := Low32(nonce);
    state[9] := Hi32(nonce);
    CopyWords(state, 10, MerakiTag);
  }

  /** The absorb phase of the last permutation. */
  method AbsorbFinal(state2: array<Word>, mixHash: Hash256) returns (state: array<Word>)
    requires state2.Length == 8
    ensures fresh(state) && state.Length == 25
    ensures state[..] == FinalState(state2[..], mixHash)
  {
    state := new Word[25](_ => 0);
    CopyWords(state, 0, state2[..]);
    CopyWords(state, 8, mixHash);
    CopyWords(state, 16, MerakiTag[..9]);
  }

  /** One of the copy loops of the absorb phases: words from .. from+|src|-1
      of the state become src, and the other words keep their values. */
  method CopyWords(state: array<Word>, from: nat, src: seq<Word>)
    requires from + |src| <= state.Length
    modifies state
    ensures state[..] == old(state[..from]) + src + old(state[from + |src|..])
  {
    ghost var target := old(state[..from]) + src + old(state[from + |src|..]);
    for i := 0 to |src|
      invariant forall k :: 0 <= k < from + i ==> state[k] == target[k]
      invariant forall k :: from + i <= k < state.Length ==> state[k] == old(state[k])
    {
      state[from + i] := src[i];
    }
  }
}
