/** Fixed-size hash values, their little-endian byte and 64-bit word views,
    the word-wise operations on 512-bit values, and the external primitives
    (Keccak, scalar FNV-1, boundary comparison) the engine is built on. */
module HashTypes {
  import opened Arithmetic

  type Byte = bv8
  type Word = bv32
  type U32 = x: int | 0 <= x < 0x1_0000_0000
  type U64 = x: int | 0 <= x < 0x1_0000_0000_0000_0000

  function Zeros(n: nat): (z: seq<Word>)
    ensures |z| == n && forall i :: 0 <= i < n ==> z[i] == 0
  {
    seq(n, i => 0)
  }

  /** Hash values, seen through their array of 32-bit words. */
  type Hash256 = h: seq<Word> | |h| == 8 witness Zeros(8)
  type Hash512 = h: seq<Word> | |h| == 16 witness Zeros(16)
  type Hash1024 = h: seq<Word> | |h| == 32 witness Zeros(32)
  type Hash2048 = h: seq<Word> | |h| == 64 witness Zeros(64)
  /** The 25-lane state of Keccak-f[800]. */
  type State800 = s: seq<Word> | |s| == 25 witness Zeros(25)

  /** The collaborators of the engine whose bodies are not part of this model. */
  datatype Primitives = Primitives(
    keccak256: seq<Byte> -> Hash256,
    keccak512: seq<Byte> -> Hash512,
    keccakF800: State800 -> State800,
    fnv1: (Word, Word) -> Word,
    isLessOrEqual: (Hash256, Hash256) -> bool,
    isEqual: (Hash256, Hash256) -> bool,
    numDatasetAccesses: U32)

  // ---------------------------------------------------------------------
  // Little-endian byte view

  function WordBytes(w: Word): (r: seq<Byte>)
    ensures |r| == 4
  {
    [(w & 0xFF) as Byte, ((w >> 8) & 0xFF) as Byte,
     ((w >> 16) & 0xFF) as Byte, ((w >> 24) & 0xFF) as Byte]
  }

  function WordOfBytes(b: seq<Byte>): Word
    requires |b| == 4
  {
    (b[0] as Word) | ((b[1] as Word) << 8) | ((b[2] as Word) << 16) | ((b[3] as Word) << 24)
  }

  lemma WordBytesRoundTrip(w: Word)
    ensures WordOfBytes(WordBytes(w)) == w
  {
  }

  /** The bytes of a word array, each word stored little-endian. */
  function Bytes(ws: seq<Word>): (r: seq<Byte>)
    ensures |r| == 4 * |ws|
  {
    if ws == [] then [] else WordBytes(ws[0]) + Bytes(ws[1..])
  }

  /** Reads a byte string back as little-endian words. */
  function Words(bs: seq<Byte>): (r: seq<Word>)
    requires |bs| % 4 == 0
    ensures 4 * |r| == |bs|
  {
    if bs == [] then [] else [WordOfBytes(bs[..4])] + Words(bs[4..])
  }

  lemma {:induction false} WordsOfBytes(ws: seq<Word>)
    ensures Words(Bytes(ws)) == ws
  {
    if ws != [] {
      var b := Bytes(ws);
      assert b[..4] == WordBytes(ws[0]);
      assert b[4..] == Bytes(ws[1..]);
      WordBytesRoundTrip(ws[0]);
      WordsOfBytes(ws[1..]);
    }
  }

  lemma {:induction false} BytesAppend(a: seq<Word>, b: seq<Word>)
    ensures Bytes(a + b) == Bytes(a) + Bytes(b)
  {
    if a != [] {
      assert (a + b)[1..] == a[1..] + b;
      BytesAppend(a[1..], b);
    } else {
      assert a + b == b;
    }
  }

  function Pow256(n: nat): (r: nat)
    ensures r >= 1
  {
    if n == 0 then 1 else 0x100 * Pow256(n - 1)
  }

  /** The n low-order bytes of x, least significant first. */
  function LeBytes(x: nat, n: nat): (r: seq<Byte>)
    ensures |r| == n
    decreases n, x
  {
    if n == 0 then [] else [(x % 0x100) as Byte] + LeBytes(x / 0x100, n - 1)
  }

  /** The unsigned number a little-endian byte string denotes. */
  function LeValue(b: seq<Byte>): nat
  {
    if b == [] then 0 else b[0] as nat + 0x100 * LeValue(b[1..])
  }

  lemma {:induction false} LeBytesRoundTrip(x: nat, n: nat)
    requires x < Pow256(n)
    ensures LeValue(LeBytes(x, n)) == x
  {
    if n > 0 {
      var b := LeBytes(x, n);
      assert b[1..] == LeBytes(x / 0x100, n - 1);
      assert x / 0x100 < Pow256(n - 1);
      LeBytesRoundTrip(x / 0x100, n - 1);
      ByteRoundTrip(x % 0x100);
      assert x == x % 0x100 + 0x100 * (x / 0x100);
    }
  }

  lemma ByteRoundTrip(y: nat)
    requires y < 0x100
    ensures (y as Byte) as nat == y
  {
    assert y % 0x100 == y;
  }

  /** The 8 bytes of a 64-bit value in little-endian order. */
  function Le64Bytes(x: U64): (r: seq<Byte>)
    ensures |r| == 8
  {
    LeBytes(x, 8)
  }

  lemma Le64RoundTrip(x: U64)
    ensures LeValue(Le64Bytes(x)) == x
  {
    assert Pow256(8) == 0x1_0000_0000_0000_0000;
    LeBytesRoundTrip(x, 8);
  }

  /** The word formed by the 4 low-order bytes of x: x truncated to 32 bits. */
  function Low32(x: nat): Word
  {
    WordOfBytes(LeBytes(x, 4))
  }

  /** The high 32-bit half of a 64-bit value (the low half is Low32). */
  function Hi32(x: U64): Word
  {
    Low32(x / 0x1_0000_0000)
  }

  lemma WordOfBytesRoundTrip(b: seq<Byte>)
    requires |b| == 4
    ensures WordBytes(WordOfBytes(b)) == b
  {
  }

  /** The low byte of x mod 256p is that of x, and the rest is x / 256 mod p. */
  lemma ModByteStep(x: nat, p: nat)
    requires p > 0
    ensures (x % (0x100 * p)) % 0x100 == x % 0x100
    ensures (x % (0x100 * p)) / 0x100 == (x / 0x100) % p
  {
    var x0, r0 := x / 0x100, x % 0x100;
    DivMod(x0, p);
    var q, r1 := x0 / p, x0 % p;
    var m := 0x100 * r1 + r0;
    assert x == q * (0x100 * p) + m by {
      assert x == 0x100 * x0 + r0;
      assert 0x100 * x0 == 0x100 * (q * p) + 0x100 * r1;
    }
    MulLe(r1, p - 1, 0x100);
    ModUnique(x, 0x100 * p, q, m);
    DivUnique(m, 0x100, r1, r0);
    ModUnique(m, 0x100, r1, r0);
  }

  /** The n low-order bytes of x are those of x mod 256^n. */
  lemma {:induction false} LeBytesMod(x: nat, n: nat)
    ensures LeBytes(x % Pow256(n), n) == LeBytes(x, n)
  {
    if n > 0 {
      ModByteStep(x, Pow256(n - 1));
      LeBytesMod(x / 0x100, n - 1);
    }
  }

  /** x with its m low-order bytes shifted out. */
  function DropBytes(x: nat, m: nat): nat
  {
    if m == 0 then x else DropBytes(x / 0x100, m - 1)
  }

  lemma DropFourBytes(x: nat)
    ensures DropBytes(x, 4) == x / 0x1_0000_0000
  {
    var x1 := x / 0x100;
    var x2 := x1 / 0x100;
    var x3 := x2 / 0x100;
    assert DropBytes(x, 4) == DropBytes(x1, 3) == DropBytes(x2, 2);
    assert DropBytes(x2, 2) == DropBytes(x3, 1) == x3 / 0x100;
    DivDiv(x, 0x100, 0x100);
    DivDiv(x, 0x1_0000, 0x100);
    DivDiv(x, 0x100_0000, 0x100);
  }

  /** The m + n low-order bytes of x are its m low-order bytes followed by
      the n low-order bytes of what remains. */
  lemma {:induction false} LeBytesSplit(x: nat, m: nat, n: nat)
    ensures LeBytes(x, m + n) == LeBytes(x, m) + LeBytes(DropBytes(x, m), n)
  {
    if m > 0 {
      LeBytesSplit(x / 0x100, m - 1, n);
      LeBytesCons(x, m + n);
      LeBytesCons(x, m);
    }
  }

  /** One byte off the front of LeBytes. */
  lemma LeBytesCons(x: nat, n: nat)
    requires n > 0
    ensures LeBytes(x, n) == [(x % 0x100) as Byte] + LeBytes(x / 0x100, n - 1)
  {
  }

  /** Low32 truncates: its bytes denote x mod 2^32. */
  lemma Low32Value(x: nat)
    ensures LeValue(WordBytes(Low32(x))) == x % 0x1_0000_0000
  {
    WordOfBytesRoundTrip(LeBytes(x, 4));
    assert Pow256(4) == 0x1_0000_0000;
    LeBytesMod(x, 4);
    LeBytesRoundTrip(x % 0x1_0000_0000, 4);
  }

  lemma Low32Periodic(x: nat)
    ensures Low32(x + 0x1_0000_0000) == Low32(x)
  {
    assert Pow256(4) == 0x1_0000_0000;
    LeBytesMod(x, 4);
    LeBytesMod(x + 0x1_0000_0000, 4);
    ModUnique(x + 0x1_0000_0000, 0x1_0000_0000, x / 0x1_0000_0000 + 1, x % 0x1_0000_0000);
  }

  /** The two halves of a 64-bit value, stored little-endian, are its 8
      little-endian bytes. */
  lemma HalvesAreLe64Bytes(x: U64)
    ensures WordBytes(Low32(x)) + WordBytes(Hi32(x)) == Le64Bytes(x)
  {
    WordOfBytesRoundTrip(LeBytes(x, 4));
    WordOfBytesRoundTrip(LeBytes(x / 0x1_0000_0000, 4));
    LeBytesSplit(x, 4, 4);
    DropFourBytes(x);
  }

  // ---------------------------------------------------------------------
  // 64-bit word view

  /** The 64-bit word made of a low and a high 32-bit half. */
  function Word64Of(lo: Word, hi: Word): bv64
  {
    (lo as bv64) | ((hi as bv64) << 32)
  }

  /** Word k of the 64-bit view: words 2k (low half) and 2k+1 (high half). */
  function Word64At(h: seq<Word>, k: nat): bv64
    requires 2 * k + 1 < |h|
  {
    Word64Of(h[2 * k], h[2 * k + 1])
  }

  /** The low and high 32-bit halves of a 64-bit word. */
  function LowHalf(w: bv64): Word
  {
    (w & 0xFFFF_FFFF) as Word
  }

  function HighHalf(w: bv64): Word
  {
    (w >> 32) as Word
  }

  /** The exclusive or of two 64-bit words is made of the exclusive ors of
      their halves. */
  lemma Word64Xor(a: Word, b: Word, c: Word, d: Word)
    ensures Word64Of(a, b) ^ Word64Of(c, d) == Word64Of(a ^ c, b ^ d)
  {
  }

  lemma XorHalves(a: Word, b: Word, c: Word, d: Word)
    ensures LowHalf(Word64Of(a, b) ^ Word64Of(c, d)) == a ^ c
    ensures HighHalf(Word64Of(a, b) ^ Word64Of(c, d)) == b ^ d
  {
  }

  lemma Word64Zero(h: seq<Word>)
    requires 2 <= |h|
    ensures Word64At(h, 0) == 0 <==> h[0] == 0 && h[1] == 0
  {
  }

  // ---------------------------------------------------------------------
  // Word-wise operations on 512-bit values

  /** Words i .. |u|-1 of the word-wise FNV-1 mix of u and v. */
  function Fnv1From(fnv1: (Word, Word) -> Word, u: seq<Word>, v: seq<Word>, i: nat): (r: seq<Word>)
    requires |u| == |v| && i <= |u|
    ensures |r| == |u| - i
    decreases |u| - i
  {
    if i == |u| then [] else [fnv1(u[i], v[i])] + Fnv1From(fnv1, u, v, i + 1)
  }

  lemma {:induction false} Fnv1FromAt(fnv1: (Word, Word) -> Word, u: seq<Word>, v: seq<Word>, i: nat, k: nat)
    requires |u| == |v| && i <= k < |u|
    ensures Fnv1From(fnv1, u, v, i)[k - i] == fnv1(u[k], v[k])
    decreases k - i
  {
    if i < k {
      Fnv1FromAt(fnv1, u, v, i + 1, k);
    }
  }

  /** Word k of a word-wise mix depends on word k of each input only. */
  lemma Fnv1MixAt(fnv1: (Word, Word) -> Word, u: seq<Word>, v: seq<Word>, k: nat)
    requires |u| == |v| && k < |u|
    ensures Fnv1From(fnv1, u, v, 0)[k] == fnv1(u[k], v[k])
  {
    Fnv1FromAt(fnv1, u, v, 0, k);
  }

  /** The word-wise FNV-1 loop (fnv1 on 512-bit values, and the mixing loop
      of the hash kernel on 1024-bit values): word k of the result is fnv1
      of word k of u and word k of v. */
  method Fnv1Mix(fnv1: (Word, Word) -> Word, u: seq<Word>, v: seq<Word>) returns (r: seq<Word>)
    requires |u| == |v|
    ensures r == Fnv1From(fnv1, u, v, 0)
  {
    r := u;
    var i := 0;
    while i < |u|
      invariant 0 <= i <= |u| && |r| == |u|
      invariant forall k :: 0 <= k < i ==> r[k] == fnv1(u[k], v[k])
      invariant forall k :: i <= k < |u| ==> r[k] == u[k]
    {
      r := r[i := fnv1(r[i], v[i])];
      i := i + 1;
    }
    forall k | 0 <= k < |u|
      ensures r[k] == Fnv1From(fnv1, u, v, 0)[k]
    {
      Fnv1MixAt(fnv1, u, v, k);
    }
  }

  /** Bitwise exclusive or of two 512-bit values. */
  function Xor512(x: Hash512, y: Hash512): (z: Hash512)
  {
    seq(16, i requires 0 <= i < 16 => XorWord(x[i], y[i]))
  }

  function XorWord(a: Word, b: Word): Word
  {
    a ^ b
  }

  /** bitwise_xor: the loop over the eight 64-bit words of x and y. */
  method BitwiseXor(x: Hash512, y: Hash512) returns (z: Hash512)
    ensures z == Xor512(x, y)
  {
    ghost var r := Xor512(x, y);
    z := Zeros(16);
    var i := 0;
    while i < 8
      invariant 0 <= i <= 8 && |z| == 16
      invariant forall k :: 0 <= k < 2 * i ==> z[k] == r[k]
    {
      var lo, hi := XorWord64(x, y, i);
      z := z[2 * i := lo][2 * i + 1 := hi];
      i := i + 1;
    }
  }

  /** One step of the 64-bit loop: 64-bit word i of x xor y, split back
      into its halves, is words 2i and 2i+1 of the word-wise xor. */
  method XorWord64(x: Hash512, y: Hash512, i: nat) returns (lo: Word, hi: Word)
    requires i < 8
    ensures lo == XorWord(x[2 * i], y[2 * i]) && hi == XorWord(x[2 * i + 1], y[2 * i + 1])
  {
    var w := Word64At(x, i) ^ Word64At(y, i);
    XorHalves(x[2 * i], x[2 * i + 1], y[2 * i], y[2 * i + 1]);
    lo, hi := LowHalf(w), HighHalf(w);
  }

  /** The exclusive or computed on 32-bit words is the one on 64-bit words. */
  lemma Xor512On64BitWords(x: Hash512, y: Hash512, k: nat)
    requires k < 8
    ensures Word64At(Xor512(x, y), k) == Word64At(x, k) ^ Word64At(y, k)
  {
    var z := Xor512(x, y);
    assert z[2 * k] == x[2 * k] ^ y[2 * k];
    assert z[2 * k + 1] == x[2 * k + 1] ^ y[2 * k + 1];
    Word64Xor(x[2 * k], x[2 * k + 1], y[2 * k], y[2 * k + 1]);
  }
}
