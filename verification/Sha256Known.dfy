/**
 * What SHA-256 has to be, in terms that do not use this model's own definitions of it: which
 * bits of a word its functions combine, that its constants are the leading fractional bits of
 * roots of primes, and the published digest of "abc", computed round by round.
 */
module Sha256Known {

  import opened Sha256

  // ---------- the functions, bit by bit (section 4.1.2) ----------

  function Bit(x: Word, j: Word): Word
    requires j < 32
  {
    (x >> j) & 1
  }

  lemma RotR2(x: Word, j: Word)
    requires j < 32
    ensures Bit(RotR(x, 2), j) == Bit(x, (j + 2) & 31)
  {
  }

  lemma RotR6(x: Word, j: Word)
    requires j < 32
    ensures Bit(RotR(x, 6), j) == Bit(x, (j + 6) & 31)
  {
  }

  lemma RotR7(x: Word, j: Word)
    requires j < 32
    ensures Bit(RotR(x, 7), j) == Bit(x, (j + 7) & 31)
  {
  }

  lemma RotR11(x: Word, j: Word)
    requires j < 32
    ensures Bit(RotR(x, 11), j) == Bit(x, (j + 11) & 31)
  {
  }

  lemma RotR13(x: Word, j: Word)
    requires j < 32
    ensures Bit(RotR(x, 13), j) == Bit(x, (j + 13) & 31)
  {
  }

  lemma RotR17(x: Word, j: Word)
    requires j < 32
    ensures Bit(RotR(x, 17), j) == Bit(x, (j + 17) & 31)
  {
  }

  lemma RotR18(x: Word, j: Word)
    requires j < 32
    ensures Bit(RotR(x, 18), j) == Bit(x, (j + 18) & 31)
  {
  }

  lemma RotR19(x: Word, j: Word)
    requires j < 32
    ensures Bit(RotR(x, 19), j) == Bit(x, (j + 19) & 31)
  {
  }

  lemma RotR22(x: Word, j: Word)
    requires j < 32
    ensures Bit(RotR(x, 22), j) == Bit(x, (j + 22) & 31)
  {
  }

  lemma RotR25(x: Word, j: Word)
    requires j < 32
    ensures Bit(RotR(x, 25), j) == Bit(x, (j + 25) & 31)
  {
  }

  lemma ShR3(x: Word, j: Word)
    requires j < 32
    ensures Bit(ShR(x, 3), j) == if j + 3 < 32 then Bit(x, j + 3) else 0
  {
  }

  lemma ShR10(x: Word, j: Word)
    requires j < 32
    ensures Bit(ShR(x, 10), j) == if j + 10 < 32 then Bit(x, j + 10) else 0
  {
  }

  function Xor(a: Word, b: Word, c: Word): Word { a ^ b ^ c }

  lemma XorBit(a: Word, b: Word, c: Word, j: Word)
    requires j < 32
    ensures Bit(Xor(a, b, c), j) == Xor(Bit(a, j), Bit(b, j), Bit(c, j))
  {
    assert ((a ^ b ^ c) >> j) & 1 == ((a >> j) & 1) ^ ((b >> j) & 1) ^ ((c >> j) & 1);
  }

  lemma BigSigma0Is(x: Word)
    ensures BigSigma0(x) == Xor(RotR(x, 2), RotR(x, 13), RotR(x, 22))
  {
  }

  lemma BigSigma0Xor(x: Word, j: Word)
    requires j < 32
    ensures Bit(BigSigma0(x), j) == Xor(Bit(RotR(x, 2), j), Bit(RotR(x, 13), j), Bit(RotR(x, 22), j))
  {
    BigSigma0Is(x);
    XorBit(RotR(x, 2), RotR(x, 13), RotR(x, 22), j);
  }

  lemma BigSigma0Bit(x: Word, j: Word)
    requires j < 32
    ensures Bit(BigSigma0(x), j)
         == Bit(x, (j + 2) & 31) ^ Bit(x, (j + 13) & 31) ^ Bit(x, (j + 22) & 31)
  {
    BigSigma0Xor(x, j);
    RotR2(x, j);
    RotR13(x, j);
    RotR22(x, j);
  }

  lemma BigSigma1Is(x: Word)
    ensures BigSigma1(x) == Xor(RotR(x, 6), RotR(x, 11), RotR(x, 25))
  {
  }

  lemma BigSigma1Xor(x: Word, j: Word)
    requires j < 32
    ensures Bit(BigSigma1(x), j) == Xor(Bit(RotR(x, 6), j), Bit(RotR(x, 11), j), Bit(RotR(x, 25), j))
  {
    BigSigma1Is(x);
    XorBit(RotR(x, 6), RotR(x, 11), RotR(x, 25), j);
  }

  lemma BigSigma1Bit(x: Word, j: Word)
    requires j < 32
    ensures Bit(BigSigma1(x), j)
         == Bit(x, (j + 6) & 31) ^ Bit(x, (j + 11) & 31) ^ Bit(x, (j + 25) & 31)
  {
    BigSigma1Xor(x, j);
    RotR6(x, j);
    RotR11(x, j);
    RotR25(x, j);
  }

  lemma SmallSigma0Is(x: Word)
    ensures SmallSigma0(x) == Xor(RotR(x, 7), RotR(x, 18), ShR(x, 3))
  {
  }

  lemma SmallSigma0Xor(x: Word, j: Word)
    requires j < 32
    ensures Bit(SmallSigma0(x), j) == Xor(Bit(RotR(x, 7), j), Bit(RotR(x, 18), j), Bit(ShR(x, 3), j))
  {
    SmallSigma0Is(x);
    XorBit(RotR(x, 7), RotR(x, 18), ShR(x, 3), j);
  }

  lemma SmallSigma0Bit(x: Word, j: Word)
    requires j < 32
    ensures Bit(SmallSigma0(x), j)
         == Bit(x, (j + 7) & 31) ^ Bit(x, (j + 18) & 31) ^ if j + 3 < 32 then Bit(x, j + 3) else 0
  {
    SmallSigma0Xor(x, j);
    RotR7(x, j);
    RotR18(x, j);
    ShR3(x, j);
  }

  lemma SmallSigma1Is(x: Word)
    ensures SmallSigma1(x) == Xor(RotR(x, 17), RotR(x, 19), ShR(x, 10))
  {
  }

  lemma SmallSigma1Xor(x: Word, j: Word)
    requires j < 32
    ensures Bit(SmallSigma1(x), j) == Xor(Bit(RotR(x, 17), j), Bit(RotR(x, 19), j), Bit(ShR(x, 10), j))
  {
    SmallSigma1Is(x);
    XorBit(RotR(x, 17), RotR(x, 19), ShR(x, 10), j);
  }

  lemma SmallSigma1Bit(x: Word, j: Word)
    requires j < 32
    ensures Bit(SmallSigma1(x), j)
         == Bit(x, (j + 17) & 31) ^ Bit(x, (j + 19) & 31) ^ if j + 10 < 32 then Bit(x, j + 10) else 0
  {
    SmallSigma1Xor(x, j);
    RotR17(x, j);
    RotR19(x, j);
    ShR10(x, j);
  }

  // ---------- the constants (sections 4.2.2 and 5.3.3) ----------

  /** The first sixty-four primes. */
  const PRIMES: seq<seq<nat>> := [
    [2, 3, 5, 7, 11, 13, 17, 19],
    [23, 29, 31, 37, 41, 43, 47, 53],
    [59, 61, 67, 71, 73, 79, 83, 89],
    [97, 101, 103, 107, 109, 113, 127, 131],
    [137, 139, 149, 151, 157, 163, 167, 173],
    [179, 181, 191, 193, 197, 199, 211, 223],
    [227, 229, 233, 239, 241, 251, 257, 263],
    [269, 271, 277, 281, 283, 293, 307, 311]
  ]

  function Prime(i: nat): nat
    requires i < 64
  {
    PRIMES[i / 8][i % 8]
  }

  /** `k` is the first 32 bits of the fractional part of the cube root of `p`, `q` its whole part. */
  ghost predicate CubeRootBits(p: nat, q: nat, k: nat) {
    var x := q * 0x1_0000_0000 + k;
    k < 0x1_0000_0000 && x * x * x <= p * 0x1_0000_0000_0000_0000_0000_0000 < (x + 1) * (x + 1) * (x + 1)
  }

  /** The same for the square root. */
  ghost predicate SquareRootBits(p: nat, q: nat, k: nat) {
    var x := q * 0x1_0000_0000 + k;
    k < 0x1_0000_0000 && x * x <= p * 0x1_0000_0000_0000_0000 < (x + 1) * (x + 1)
  }

  ghost predicate IsCubeRoot(p: nat, k: nat) {
    exists q: nat :: CubeRootBits(p, q, k)
  }

  ghost predicate IsSquareRoot(p: nat, k: nat) {
    exists q: nat :: SquareRootBits(p, q, k)
  }

  ghost predicate HoldsCubeRoot(i: nat) {
    i < 64 && IsCubeRoot(Prime(i), RoundConstant(i) as nat)
  }

  ghost predicate HoldsSquareRoot(i: nat) {
    i < 8 && IsSquareRoot(Prime(i), InitialWord(i) as nat)
  }

  lemma CubeRoot(i: nat, p: nat, q: nat, w: Word, k: nat)
    requires i < 64 && Prime(i) == p && RoundConstant(i) == w && w as nat == k && CubeRootBits(p, q, k)
    ensures HoldsCubeRoot(i)
  {
    assert IsCubeRoot(p, k);
  }

  lemma SquareRoot(i: nat, p: nat, q: nat, w: Word, k: nat)
    requires i < 8 && Prime(i) == p && InitialWord(i) == w && w as nat == k && SquareRootBits(p, q, k)
    ensures HoldsSquareRoot(i)
  {
    assert IsSquareRoot(p, k);
  }

  lemma CubeRoots0()
    ensures forall i :: 0 <= i < 4 ==> HoldsCubeRoot(i)
  {
    CubeRoot(0, 2, 1, 0x428a2f98, 0x428a2f98);
    CubeRoot(1, 3, 1, 0x71374491, 0x71374491);
    CubeRoot(2, 5, 1, 0xb5c0fbcf, 0xb5c0fbcf);
    CubeRoot(3, 7, 1, 0xe9b5dba5, 0xe9b5dba5);
  }

  lemma CubeRoots4()
    ensures forall i :: 4 <= i < 8 ==> HoldsCubeRoot(i)
  {
    CubeRoot(4, 11, 2, 0x3956c25b, 0x3956c25b);
    CubeRoot(5, 13, 2, 0x59f111f1, 0x59f111f1);
    CubeRoot(6, 17, 2, 0x923f82a4, 0x923f82a4);
    CubeRoot(7, 19, 2, 0xab1c5ed5, 0xab1c5ed5);
  }

  lemma CubeRoots8()
    ensures forall i :: 8 <= i < 12 ==> HoldsCubeRoot(i)
  {
    CubeRoot(8, 23, 2, 0xd807aa98, 0xd807aa98);
    CubeRoot(9, 29, 3, 0x12835b01, 0x12835b01);
    CubeRoot(10, 31, 3, 0x243185be, 0x243185be);
    CubeRoot(11, 37, 3, 0x550c7dc3, 0x550c7dc3);
  }

  lemma CubeRoots12()
    ensures forall i :: 12 <= i < 16 ==> HoldsCubeRoot(i)
  {
    CubeRoot(12, 41, 3, 0x72be5d74, 0x72be5d74);
    CubeRoot(13, 43, 3, 0x80deb1fe, 0x80deb1fe);
    CubeRoot(14, 47, 3, 0x9bdc06a7, 0x9bdc06a7);
    CubeRoot(15, 53, 3, 0xc19bf174, 0xc19bf174);
  }

  lemma CubeRoots16()
    ensures forall i :: 16 <= i < 20 ==> HoldsCubeRoot(i)
  {
    CubeRoot(16, 59, 3, 0xe49b69c1, 0xe49b69c1);
    CubeRoot(17, 61, 3, 0xefbe4786, 0xefbe4786);
    CubeRoot(18, 67, 4, 0x0fc19dc6, 0x0fc19dc6);
    CubeRoot(19, 71, 4, 0x240ca1cc, 0x240ca1cc);
  }

  lemma CubeRoots20()
    ensures forall i :: 20 <= i < 24 ==> HoldsCubeRoot(i)
  {
    CubeRoot(20, 73, 4, 0x2de92c6f, 0x2de92c6f);
    CubeRoot(21, 79, 4, 0x4a7484aa, 0x4a7484aa);
    CubeRoot(22, 83, 4, 0x5cb0a9dc, 0x5cb0a9dc);
    CubeRoot(23, 89, 4, 0x76f988da, 0x76f988da);
  }

  lemma CubeRoots24()
    ensures forall i :: 24 <= i < 28 ==> HoldsCubeRoot(i)
  {
    CubeRoot(24, 97, 4, 0x983e5152, 0x983e5152);
    CubeRoot(25, 101, 4, 0xa831c66d, 0xa831c66d);
    CubeRoot(26, 103, 4, 0xb00327c8, 0xb00327c8);
    CubeRoot(27, 107, 4, 0xbf597fc7, 0xbf597fc7);
  }

  lemma CubeRoots28()
    ensures forall i :: 28 <= i < 32 ==> HoldsCubeRoot(i)
  {
    CubeRoot(28, 109, 4, 0xc6e00bf3, 0xc6e00bf3);
    CubeRoot(29, 113, 4, 0xd5a79147, 0xd5a79147);
    CubeRoot(30, 127, 5, 0x06ca6351, 0x06ca6351);
    CubeRoot(31, 131, 5, 0x14292967, 0x14292967);
  }

  lemma CubeRoots32()
    ensures forall i :: 32 <= i < 36 ==> HoldsCubeRoot(i)
  {
    CubeRoot(32, 137, 5, 0x27b70a85, 0x27b70a85);
    CubeRoot(33, 139, 5, 0x2e1b2138, 0x2e1b2138);
    CubeRoot(34, 149, 5, 0x4d2c6dfc, 0x4d2c6dfc);
    CubeRoot(35, 151, 5, 0x53380d13, 0x53380d13);
  }

  lemma CubeRoots36()
    ensures forall i :: 36 <= i < 40 ==> HoldsCubeRoot(i)
  {
    CubeRoot(36, 157, 5, 0x650a7354, 0x650a7354);
    CubeRoot(37, 163, 5, 0x766a0abb, 0x766a0abb);
    CubeRoot(38, 167, 5, 0x81c2c92e, 0x81c2c92e);
    CubeRoot(39, 173, 5, 0x92722c85, 0x92722c85);
  }

  lemma CubeRoots40()
    ensures forall i :: 40 <= i < 44 ==> HoldsCubeRoot(i)
  {
    CubeRoot(40, 179, 5, 0xa2bfe8a1, 0xa2bfe8a1);
    CubeRoot(41, 181, 5, 0xa81a664b, 0xa81a664b);
    CubeRoot(42, 191, 5, 0xc24b8b70, 0xc24b8b70);
    CubeRoot(43, 193, 5, 0xc76c51a3, 0xc76c51a3);
  }

  lemma CubeRoots44()
    ensures forall i :: 44 <= i < 48 ==> HoldsCubeRoot(i)
  {
    CubeRoot(44, 197, 5, 0xd192e819, 0xd192e819);
    CubeRoot(45, 199, 5, 0xd6990624, 0xd6990624);
    CubeRoot(46, 211, 5, 0xf40e3585, 0xf40e3585);
    CubeRoot(47, 223, 6, 0x106aa070, 0x106aa070);
  }

  lemma CubeRoots48()
    ensures forall i :: 48 <= i < 52 ==> HoldsCubeRoot(i)
  {
    CubeRoot(48, 227, 6, 0x19a4c116, 0x19a4c116);
    CubeRoot(49, 229, 6, 0x1e376c08, 0x1e376c08);
    CubeRoot(50, 233, 6, 0x2748774c, 0x2748774c);
    CubeRoot(51, 239, 6, 0x34b0bcb5, 0x34b0bcb5);
  }

  lemma CubeRoots52()
    ensures forall i :: 52 <= i < 56 ==> HoldsCubeRoot(i)
  {
    CubeRoot(52, 241, 6, 0x391c0cb3, 0x391c0cb3);
    CubeRoot(53, 251, 6, 0x4ed8aa4a, 0x4ed8aa4a);
    CubeRoot(54, 257, 6, 0x5b9cca4f, 0x5b9cca4f);
    CubeRoot(55, 263, 6, 0x682e6ff3, 0x682e6ff3);
  }

  lemma CubeRoots56()
    ensures forall i :: 56 <= i < 60 ==> HoldsCubeRoot(i)
  {
    CubeRoot(56, 269, 6, 0x748f82ee, 0x748f82ee);
    CubeRoot(57, 271, 6, 0x78a5636f, 0x78a5636f);
    CubeRoot(58, 277, 6, 0x84c87814, 0x84c87814);
    CubeRoot(59, 281, 6, 0x8cc70208, 0x8cc70208);
  }

  lemma CubeRoots60()
    ensures forall i :: 60 <= i < 64 ==> HoldsCubeRoot(i)
  {
    CubeRoot(60, 283, 6, 0x90befffa, 0x90befffa);
    CubeRoot(61, 293, 6, 0xa4506ceb, 0xa4506ceb);
    CubeRoot(62, 307, 6, 0xbef9a3f7, 0xbef9a3f7);
    CubeRoot(63, 311, 6, 0xc67178f2, 0xc67178f2);
  }

  lemma RoundConstants(i: nat)
    requires 0 <= i < 64
    ensures HoldsCubeRoot(i)
  {
    if i < 4 {
      CubeRoots0();
    } else if i < 8 {
      CubeRoots4();
    } else if i < 12 {
      CubeRoots8();
    } else if i < 16 {
      CubeRoots12();
    } else if i < 20 {
      CubeRoots16();
    } else if i < 24 {
      CubeRoots20();
    } else if i < 28 {
      CubeRoots24();
    } else if i < 32 {
      CubeRoots28();
    } else if i < 36 {
      CubeRoots32();
    } else if i < 40 {
      CubeRoots36();
    } else if i < 44 {
      CubeRoots40();
    } else if i < 48 {
      CubeRoots44();
    } else if i < 52 {
      CubeRoots48();
    } else if i < 56 {
      CubeRoots52();
    } else if i < 60 {
      CubeRoots56();
    } else {
      CubeRoots60();
    }
  }

  lemma InitialWords(i: nat)
    requires i < 8
    ensures HoldsSquareRoot(i)
  {
    SquareRoot(0, 2, 1, 0x6a09e667, 0x6a09e667);
    SquareRoot(1, 3, 1, 0xbb67ae85, 0xbb67ae85);
    SquareRoot(2, 5, 2, 0x3c6ef372, 0x3c6ef372);
    SquareRoot(3, 7, 2, 0xa54ff53a, 0xa54ff53a);
    SquareRoot(4, 11, 3, 0x510e527f, 0x510e527f);
    SquareRoot(5, 13, 3, 0x9b05688c, 0x9b05688c);
    SquareRoot(6, 17, 4, 0x1f83d9ab, 0x1f83d9ab);
    SquareRoot(7, 19, 4, 0x5be0cd19, 0x5be0cd19);
  }

  // ---------- padding and chaining (sections 5.1.1 and 6.2.2) ----------

  function Pow256(n: nat): (p: nat)
    ensures p >= 1
  {
    if n == 0 then 1 else 256 * Pow256(n - 1)
  }

  lemma {:induction false} ShiftIsDivision(x: nat, i: nat)
    ensures ShiftOctets(x, i) == x / Pow256(i)
  {
    if i == 0 {
    } else {
      ShiftIsDivision(x / 256, i - 1);
      DivideTwice(x, Pow256(i - 1));
    }
  }

  lemma DivideTwice(x: nat, p: nat)
    requires p > 0
    ensures x / 256 / p == x / (256 * p)
  {
    var q, r := x / (256 * p), x % (256 * p);
    assert x == 256 * (p * q) + r;
    assert x / 256 == p * q + r / 256;
    assert r / 256 < p;
    QuotientIs(p * q + r / 256, p, q, r / 256);
  }

  lemma MoreTimes(a: int, b: int, p: nat)
    requires a <= b
    ensures a * p <= b * p
  {
    assert b * p == a * p + (b - a) * p;
  }

  lemma QuotientIs(x: nat, p: nat, q: nat, r: nat)
    requires r < p && x == p * q + r
    ensures x / p == q
  {
    var d := x / p - q;
    assert d * p == r - x % p;
    MoreTimes(1, if d >= 1 then d else 1, p);
    MoreTimes(if d <= -1 then d else -1, -1, p);
  }

  /**
   * The padded message is the message, octet 0x80, zeros, and the message's length in bits as a
   * 64-bit number, most significant octet first, in the fewest blocks of 64 octets that hold them.
   */
  lemma PaddedMessage(m: seq<Octet>)
    ensures var r := Pad(m); var n := |r| - 8;
      && |r| % 64 == 0 && |m| + 9 <= |r| < |m| + 73
      && r[..|m|] == m && r[|m|] == 0x80
      && (forall i :: |m| < i < n ==> r[i] == 0)
  {
  }

  lemma PaddedEnd(m: seq<Octet>)
    ensures Pad(m)[|Pad(m)| - 8..] == BigEndian(8 * |m|, 8)
  {
  }

  lemma PaddedLength(m: seq<Octet>, i: nat)
    requires i < 8
    ensures Pad(m)[|Pad(m)| - 1 - i] == (8 * |m| / Pow256(i) % 256) as Octet
  {
    PaddedEnd(m);
    BigEndianAt(8 * |m|, 8, i);
    ShiftIsDivision(8 * |m|, i);
    assert Pad(m)[|Pad(m)| - 1 - i] == Pad(m)[|Pad(m)| - 8..][7 - i];
  }

  /** The blocks are compressed first to last, each starting from the hash value the one before left. */
  lemma {:induction false} ChainInOrder<W>(f: (seq<W>, seq<Octet>) -> seq<W>, h: seq<W>, d: seq<Octet>, n: nat)
    requires 64 * (n + 1) <= |d|
    ensures Chain(f, h, d, n + 1) == Chain(f, f(h, d[..64]), d[64..], n)
  {
    if n == 0 {
      assert d[0..64] == d[..64];
      assert Chain(f, h, d, 0) == h;
    } else {
      ChainInOrder(f, h, d, n - 1);
      assert d[64..][64 * (n - 1)..64 * n] == d[64 * n..64 * (n + 1)];
    }
  }

  // ---------- the digest of "abc" ----------

  const ABC: seq<Octet> := [0x61, 0x62, 0x63]

  function AbcBlock(): (b: seq<Octet>)
    ensures |b| == 64
  {
    ABC + [0x80] + Zeros(59) + [24]
  }

  function Mixed<W>(o: Ops<W>, w2: W, w7: W, w15: W, w16: W): W {
    o.add(o.add(o.add(o.smallSigma1(w2), w7), o.smallSigma0(w15)), w16)
  }

  ghost predicate MixesAt<W(!new)>(o: Ops<W>, ws: seq<W>, t: nat) {
    16 <= t < |ws| && ws[t] == Mixed(o, ws[t - 2], ws[t - 7], ws[t - 15], ws[t - 16])
  }

  ghost predicate TurnsAt<W(!new)>(o: Ops<W>, ws: seq<W>, vs: seq<Vars<W>>, n: nat) {
    n < |ws| && n + 1 < |vs| && vs[n + 1] == Round(o, vs[n], o.k(n), ws[n])
  }

  /** `ws` is the schedule and `vs` the working variables of the one block of "abc". */
  ghost predicate IsTrace(ws: seq<Word>, vs: seq<Vars<Word>>) {
    && |ws| == 64 && |vs| == 65
    && ws[0] == 0x61626380 && (forall t :: 1 <= t < 15 ==> ws[t] == 0) && ws[15] == 24
    && (forall t :: 16 <= t < 64 ==> MixesAt(FipsOps(), ws, t))
    && vs[0] == Vars(0x6a09e667, 0xbb67ae85, 0x3c6ef372, 0xa54ff53a, 0x510e527f, 0x9b05688c, 0x1f83d9ab, 0x5be0cd19)
    && (forall n :: 0 <= n < 64 ==> TurnsAt(FipsOps(), ws, vs, n))
  }

  lemma MixWord(ws: seq<Word>, t: nat, w2: Word, w7: Word, w15: Word, w16: Word, w: Word)
    requires 16 <= t < |ws| && MixesAt(FipsOps(), ws, t)
    requires ws[t - 2] == w2 && ws[t - 7] == w7 && ws[t - 15] == w15 && ws[t - 16] == w16
    requires Mixed(FipsOps(), w2, w7, w15, w16) == w
    ensures ws[t] == w
  {
  }

  lemma Turn(ws: seq<Word>, vs: seq<Vars<Word>>, n: nat, v: Vars<Word>, k: Word, w: Word, a: Word, e: Word)
    requires n < |ws| && n + 1 < |vs| && TurnsAt(FipsOps(), ws, vs, n)
    requires vs[n] == v && ws[n] == w && FipsOps().k(n) == k
    requires Round(FipsOps(), v, k, w) == Vars(a, v.a, v.b, v.c, e, v.e, v.f, v.g)
    ensures vs[n + 1] == Vars(a, v.a, v.b, v.c, e, v.e, v.f, v.g)
  {
  }

  lemma Words16(ws: seq<Word>, vs: seq<Vars<Word>>)
    requires IsTrace(ws, vs)
    ensures ws[16] == 0x61626380 && ws[17] == 0x000f0000 && ws[18] == 0x7da86405 && ws[19] == 0x600003c6
    ensures ws[20] == 0x3e9d7b78 && ws[21] == 0x0183fc00 && ws[22] == 0x12dcbfdb && ws[23] == 0xe2e2c38e
  {
    MixWord(ws, 16, 0x00000000, 0x00000000, 0x00000000, 0x61626380, 0x61626380);
    MixWord(ws, 17, 0x00000018, 0x00000000, 0x00000000, 0x00000000, 0x000f0000);
    MixWord(ws, 18, 0x61626380, 0x00000000, 0x00000000, 0x00000000, 0x7da86405);
    MixWord(ws, 19, 0x000f0000, 0x00000000, 0x00000000, 0x00000000, 0x600003c6);
    MixWord(ws, 20, 0x7da86405, 0x00000000, 0x00000000, 0x00000000, 0x3e9d7b78);
    MixWord(ws, 21, 0x600003c6, 0x00000000, 0x00000000, 0x00000000, 0x0183fc00);
    MixWord(ws, 22, 0x3e9d7b78, 0x00000018, 0x00000000, 0x00000000, 0x12dcbfdb);
    MixWord(ws, 23, 0x0183fc00, 0x61626380, 0x00000000, 0x00000000, 0xe2e2c38e);
  }

  lemma Words24(ws: seq<Word>, vs: seq<Vars<Word>>)
    requires IsTrace(ws, vs)
    ensures ws[24] == 0xc8215c1a && ws[25] == 0xb73679a2 && ws[26] == 0xe5bc3909 && ws[27] == 0x32663c5b
    ensures ws[28] == 0x9d209d67 && ws[29] == 0xec8726cb && ws[30] == 0x702138a4 && ws[31] == 0xd3b7973b
  {
    Words16(ws, vs);
    MixWord(ws, 24, 0x12dcbfdb, 0x000f0000, 0x00000000, 0x00000000, 0xc8215c1a);
    MixWord(ws, 25, 0xe2e2c38e, 0x7da86405, 0x00000000, 0x00000000, 0xb73679a2);
    MixWord(ws, 26, 0xc8215c1a, 0x600003c6, 0x00000000, 0x00000000, 0xe5bc3909);
    MixWord(ws, 27, 0xb73679a2, 0x3e9d7b78, 0x00000000, 0x00000000, 0x32663c5b);
    MixWord(ws, 28, 0xe5bc3909, 0x0183fc00, 0x00000000, 0x00000000, 0x9d209d67);
    MixWord(ws, 29, 0x32663c5b, 0x12dcbfdb, 0x00000000, 0x00000000, 0xec8726cb);
    MixWord(ws, 30, 0x9d209d67, 0xe2e2c38e, 0x00000018, 0x00000000, 0x702138a4);
    MixWord(ws, 31, 0xec8726cb, 0xc8215c1a, 0x61626380, 0x00000018, 0xd3b7973b);
  }

  lemma Words32(ws: seq<Word>, vs: seq<Vars<Word>>)
    requires IsTrace(ws, vs)
    ensures ws[32] == 0x93f5997f && ws[33] == 0x3b68ba73 && ws[34] == 0xaff4ffc1 && ws[35] == 0xf10a5c62
    ensures ws[36] == 0x0a8b3996 && ws[37] == 0x72af830a && ws[38] == 0x9409e33e && ws[39] == 0x24641522
  {
    Words16(ws, vs); Words24(ws, vs);
    MixWord(ws, 32, 0x702138a4, 0xb73679a2, 0x000f0000, 0x61626380, 0x93f5997f);
    MixWord(ws, 33, 0xd3b7973b, 0xe5bc3909, 0x7da86405, 0x000f0000, 0x3b68ba73);
    MixWord(ws, 34, 0x93f5997f, 0x32663c5b, 0x600003c6, 0x7da86405, 0xaff4ffc1);
    MixWord(ws, 35, 0x3b68ba73, 0x9d209d67, 0x3e9d7b78, 0x600003c6, 0xf10a5c62);
    MixWord(ws, 36, 0xaff4ffc1, 0xec8726cb, 0x0183fc00, 0x3e9d7b78, 0x0a8b3996);
    MixWord(ws, 37, 0xf10a5c62, 0x702138a4, 0x12dcbfdb, 0x0183fc00, 0x72af830a);
    MixWord(ws, 38, 0x0a8b3996, 0xd3b7973b, 0xe2e2c38e, 0x12dcbfdb, 0x9409e33e);
    MixWord(ws, 39, 0x72af830a, 0x93f5997f, 0xc8215c1a, 0xe2e2c38e, 0x24641522);
  }

  lemma Words40(ws: seq<Word>, vs: seq<Vars<Word>>)
    requires IsTrace(ws, vs)
    ensures ws[40] == 0x9f47bf94 && ws[41] == 0xf0a64f5a && ws[42] == 0x3e246a79 && ws[43] == 0x27333ba3
    ensures ws[44] == 0x0c4763f2 && ws[45] == 0x840abf27 && ws[46] == 0x7a290d5d && ws[47] == 0x065c43da
  {
    Words24(ws, vs); Words32(ws, vs);
    MixWord(ws, 40, 0x9409e33e, 0x3b68ba73, 0xb73679a2, 0xc8215c1a, 0x9f47bf94);
    MixWord(ws, 41, 0x24641522, 0xaff4ffc1, 0xe5bc3909, 0xb73679a2, 0xf0a64f5a);
    MixWord(ws, 42, 0x9f47bf94, 0xf10a5c62, 0x32663c5b, 0xe5bc3909, 0x3e246a79);
    MixWord(ws, 43, 0xf0a64f5a, 0x0a8b3996, 0x9d209d67, 0x32663c5b, 0x27333ba3);
    MixWord(ws, 44, 0x3e246a79, 0x72af830a, 0xec8726cb, 0x9d209d67, 0x0c4763f2);
    MixWord(ws, 45, 0x27333ba3, 0x9409e33e, 0x702138a4, 0xec8726cb, 0x840abf27);
    MixWord(ws, 46, 0x0c4763f2, 0x24641522, 0xd3b7973b, 0x702138a4, 0x7a290d5d);
    MixWord(ws, 47, 0x840abf27, 0x9f47bf94, 0x93f5997f, 0xd3b7973b, 0x065c43da);
  }

  lemma Words48(ws: seq<Word>, vs: seq<Vars<Word>>)
    requires IsTrace(ws, vs)
    ensures ws[48] == 0xfb3e89cb && ws[49] == 0xcc7617db && ws[50] == 0xb9e66c34 && ws[51] == 0xa9993667
    ensures ws[52] == 0x84badedd && ws[53] == 0xc21462bc && ws[54] == 0x1487472c && ws[55] == 0xb20f7a99
  {
    Words32(ws, vs); Words40(ws, vs);
    MixWord(ws, 48, 0x7a290d5d, 0xf0a64f5a, 0x3b68ba73, 0x93f5997f, 0xfb3e89cb);
    MixWord(ws, 49, 0x065c43da, 0x3e246a79, 0xaff4ffc1, 0x3b68ba73, 0xcc7617db);
    MixWord(ws, 50, 0xfb3e89cb, 0x27333ba3, 0xf10a5c62, 0xaff4ffc1, 0xb9e66c34);
    MixWord(ws, 51, 0xcc7617db, 0x0c4763f2, 0x0a8b3996, 0xf10a5c62, 0xa9993667);
    MixWord(ws, 52, 0xb9e66c34, 0x840abf27, 0x72af830a, 0x0a8b3996, 0x84badedd);
    MixWord(ws, 53, 0xa9993667, 0x7a290d5d, 0x9409e33e, 0x72af830a, 0xc21462bc);
    MixWord(ws, 54, 0x84badedd, 0x065c43da, 0x24641522, 0x9409e33e, 0x1487472c);
    MixWord(ws, 55, 0xc21462bc, 0xfb3e89cb, 0x9f47bf94, 0x24641522, 0xb20f7a99);
  }

  lemma Words56(ws: seq<Word>, vs: seq<Vars<Word>>)
    requires IsTrace(ws, vs)
    ensures ws[56] == 0xef57b9cd && ws[57] == 0xebe6b238 && ws[58] == 0x9fe3095e && ws[59] == 0x78bc8d4b
    ensures ws[60] == 0xa43fcf15 && ws[61] == 0x668b2ff8 && ws[62] == 0xeeaba2cc && ws[63] == 0x12b1edeb
  {
    Words40(ws, vs); Words48(ws, vs);
    MixWord(ws, 56, 0x1487472c, 0xcc7617db, 0xf0a64f5a, 0x9f47bf94, 0xef57b9cd);
    MixWord(ws, 57, 0xb20f7a99, 0xb9e66c34, 0x3e246a79, 0xf0a64f5a, 0xebe6b238);
    MixWord(ws, 58, 0xef57b9cd, 0xa9993667, 0x27333ba3, 0x3e246a79, 0x9fe3095e);
    MixWord(ws, 59, 0xebe6b238, 0x84badedd, 0x0c4763f2, 0x27333ba3, 0x78bc8d4b);
    MixWord(ws, 60, 0x9fe3095e, 0xc21462bc, 0x840abf27, 0x0c4763f2, 0xa43fcf15);
    MixWord(ws, 61, 0x78bc8d4b, 0x1487472c, 0x7a290d5d, 0x840abf27, 0x668b2ff8);
    MixWord(ws, 62, 0xa43fcf15, 0xb20f7a99, 0x065c43da, 0x7a290d5d, 0xeeaba2cc);
    MixWord(ws, 63, 0x668b2ff8, 0xef57b9cd, 0xfb3e89cb, 0x065c43da, 0x12b1edeb);
  }


  lemma Rounds0(ws: seq<Word>, vs: seq<Vars<Word>>)
    requires IsTrace(ws, vs)
    ensures vs[8] == Vars(0x85a07b5f, 0xe5030380, 0x2b4209f5, 0x04409a6a, 0x0c657a79, 0x9b27a401, 0x714260ad, 0x43ada245)
  {
    Turn(ws, vs, 0, Vars(0x6a09e667, 0xbb67ae85, 0x3c6ef372, 0xa54ff53a, 0x510e527f, 0x9b05688c, 0x1f83d9ab, 0x5be0cd19),
         0x428a2f98, 0x61626380, 0x5d6aebcd, 0xfa2a4622);
    Turn(ws, vs, 1, Vars(0x5d6aebcd, 0x6a09e667, 0xbb67ae85, 0x3c6ef372, 0xfa2a4622, 0x510e527f, 0x9b05688c, 0x1f83d9ab),
         0x71374491, 0x00000000, 0x5a6ad9ad, 0x78ce7989);
    Turn(ws, vs, 2, Vars(0x5a6ad9ad, 0x5d6aebcd, 0x6a09e667, 0xbb67ae85, 0x78ce7989, 0xfa2a4622, 0x510e527f, 0x9b05688c),
         0xb5c0fbcf, 0x00000000, 0xc8c347a7, 0xf92939eb);
    Turn(ws, vs, 3, Vars(0xc8c347a7, 0x5a6ad9ad, 0x5d6aebcd, 0x6a09e667, 0xf92939eb, 0x78ce7989, 0xfa2a4622, 0x510e527f),
         0xe9b5dba5, 0x00000000, 0xd550f666, 0x24e00850);
    Turn(ws, vs, 4, Vars(0xd550f666, 0xc8c347a7, 0x5a6ad9ad, 0x5d6aebcd, 0x24e00850, 0xf92939eb, 0x78ce7989, 0xfa2a4622),
         0x3956c25b, 0x00000000, 0x04409a6a, 0x43ada245);
    Turn(ws, vs, 5, Vars(0x04409a6a, 0xd550f666, 0xc8c347a7, 0x5a6ad9ad, 0x43ada245, 0x24e00850, 0xf92939eb, 0x78ce7989),
         0x59f111f1, 0x00000000, 0x2b4209f5, 0x714260ad);
    Turn(ws, vs, 6, Vars(0x2b4209f5, 0x04409a6a, 0xd550f666, 0xc8c347a7, 0x714260ad, 0x43ada245, 0x24e00850, 0xf92939eb),
         0x923f82a4, 0x00000000, 0xe5030380, 0x9b27a401);
    Turn(ws, vs, 7, Vars(0xe5030380, 0x2b4209f5, 0x04409a6a, 0xd550f666, 0x9b27a401, 0x714260ad, 0x43ada245, 0x24e00850),
         0xab1c5ed5, 0x00000000, 0x85a07b5f, 0x0c657a79);
  }

  lemma Rounds8(ws: seq<Word>, vs: seq<Vars<Word>>)
    requires IsTrace(ws, vs)
    ensures vs[16] == Vars(0xb0fa238e, 0xc0645fde, 0xd932eb16, 0x87912990, 0x07590dcd, 0x0b92f20c, 0x745a48de, 0x1e578218)
  {
    Rounds0(ws, vs);
    Turn(ws, vs, 8, Vars(0x85a07b5f, 0xe5030380, 0x2b4209f5, 0x04409a6a, 0x0c657a79, 0x9b27a401, 0x714260ad, 0x43ada245),
         0xd807aa98, 0x00000000, 0x8e04ecb9, 0x32ca2d8c);
    Turn(ws, vs, 9, Vars(0x8e04ecb9, 0x85a07b5f, 0xe5030380, 0x2b4209f5, 0x32ca2d8c, 0x0c657a79, 0x9b27a401, 0x714260ad),
         0x12835b01, 0x00000000, 0x8c87346b, 0x1cc92596);
    Turn(ws, vs, 10, Vars(0x8c87346b, 0x8e04ecb9, 0x85a07b5f, 0xe5030380, 0x1cc92596, 0x32ca2d8c, 0x0c657a79, 0x9b27a401),
         0x243185be, 0x00000000, 0x4798a3f4, 0x436b23e8);
    Turn(ws, vs, 11, Vars(0x4798a3f4, 0x8c87346b, 0x8e04ecb9, 0x85a07b5f, 0x436b23e8, 0x1cc92596, 0x32ca2d8c, 0x0c657a79),
         0x550c7dc3, 0x00000000, 0xf71fc5a9, 0x816fd6e9);
    Turn(ws, vs, 12, Vars(0xf71fc5a9, 0x4798a3f4, 0x8c87346b, 0x8e04ecb9, 0x816fd6e9, 0x436b23e8, 0x1cc92596, 0x32ca2d8c),
         0x72be5d74, 0x00000000, 0x87912990, 0x1e578218);
    Turn(ws, vs, 13, Vars(0x87912990, 0xf71fc5a9, 0x4798a3f4, 0x8c87346b, 0x1e578218, 0x816fd6e9, 0x436b23e8, 0x1cc92596),
         0x80deb1fe, 0x00000000, 0xd932eb16, 0x745a48de);
    Turn(ws, vs, 14, Vars(0xd932eb16, 0x87912990, 0xf71fc5a9, 0x4798a3f4, 0x745a48de, 0x1e578218, 0x816fd6e9, 0x436b23e8),
         0x9bdc06a7, 0x00000000, 0xc0645fde, 0x0b92f20c);
    Turn(ws, vs, 15, Vars(0xc0645fde, 0xd932eb16, 0x87912990, 0xf71fc5a9, 0x0b92f20c, 0x745a48de, 0x1e578218, 0x816fd6e9),
         0xc19bf174, 0x00000018, 0xb0fa238e, 0x07590dcd);
  }

  lemma Rounds16(ws: seq<Word>, vs: seq<Vars<Word>>)
    requires IsTrace(ws, vs)
    ensures vs[24] == Vars(0xc5d53d8d, 0xa7a3623f, 0xc2606d6d, 0x9dc68b63, 0xaa47c347, 0x49f5114a, 0xe1257970, 0x8ada8930)
  {
    Words16(ws, vs);
    Rounds8(ws, vs);
    Turn(ws, vs, 16, Vars(0xb0fa238e, 0xc0645fde, 0xd932eb16, 0x87912990, 0x07590dcd, 0x0b92f20c, 0x745a48de, 0x1e578218),
         0xe49b69c1, 0x61626380, 0x21da9a9b, 0x8034229c);
    Turn(ws, vs, 17, Vars(0x21da9a9b, 0xb0fa238e, 0xc0645fde, 0xd932eb16, 0x8034229c, 0x07590dcd, 0x0b92f20c, 0x745a48de),
         0xefbe4786, 0x000f0000, 0xc2fbd9d1, 0x846ee454);
    Turn(ws, vs, 18, Vars(0xc2fbd9d1, 0x21da9a9b, 0xb0fa238e, 0xc0645fde, 0x846ee454, 0x8034229c, 0x07590dcd, 0x0b92f20c),
         0x0fc19dc6, 0x7da86405, 0xfe777bbf, 0xcc899961);
    Turn(ws, vs, 19, Vars(0xfe777bbf, 0xc2fbd9d1, 0x21da9a9b, 0xb0fa238e, 0xcc899961, 0x846ee454, 0x8034229c, 0x07590dcd),
         0x240ca1cc, 0x600003c6, 0xe1f20c33, 0xb0638179);
    Turn(ws, vs, 20, Vars(0xe1f20c33, 0xfe777bbf, 0xc2fbd9d1, 0x21da9a9b, 0xb0638179, 0xcc899961, 0x846ee454, 0x8034229c),
         0x2de92c6f, 0x3e9d7b78, 0x9dc68b63, 0x8ada8930);
    Turn(ws, vs, 21, Vars(0x9dc68b63, 0xe1f20c33, 0xfe777bbf, 0xc2fbd9d1, 0x8ada8930, 0xb0638179, 0xcc899961, 0x846ee454),
         0x4a7484aa, 0x0183fc00, 0xc2606d6d, 0xe1257970);
    Turn(ws, vs, 22, Vars(0xc2606d6d, 0x9dc68b63, 0xe1f20c33, 0xfe777bbf, 0xe1257970, 0x8ada8930, 0xb0638179, 0xcc899961),
         0x5cb0a9dc, 0x12dcbfdb, 0xa7a3623f, 0x49f5114a);
    Turn(ws, vs, 23, Vars(0xa7a3623f, 0xc2606d6d, 0x9dc68b63, 0xe1f20c33, 0x49f5114a, 0xe1257970, 0x8ada8930, 0xb0638179),
         0x76f988da, 0xe2e2c38e, 0xc5d53d8d, 0xaa47c347);
  }

  lemma Rounds24(ws: seq<Word>, vs: seq<Vars<Word>>)
    requires IsTrace(ws, vs)
    ensures vs[32] == Vars(0x73b33bf5, 0xea992a22, 0xa0060b30, 0x363482c9, 0xba591112, 0x0109ab3a, 0xade79437, 0x6112a3b7)
  {
    Words24(ws, vs);
    Rounds16(ws, vs);
    Turn(ws, vs, 24, Vars(0xc5d53d8d, 0xa7a3623f, 0xc2606d6d, 0x9dc68b63, 0xaa47c347, 0x49f5114a, 0xe1257970, 0x8ada8930),
         0x983e5152, 0xc8215c1a, 0x1c2c2838, 0x2823ef91);
    Turn(ws, vs, 25, Vars(0x1c2c2838, 0xc5d53d8d, 0xa7a3623f, 0xc2606d6d, 0x2823ef91, 0xaa47c347, 0x49f5114a, 0xe1257970),
         0xa831c66d, 0xb73679a2, 0xcde8037d, 0x14383d8e);
    Turn(ws, vs, 26, Vars(0xcde8037d, 0x1c2c2838, 0xc5d53d8d, 0xa7a3623f, 0x14383d8e, 0x2823ef91, 0xaa47c347, 0x49f5114a),
         0xb00327c8, 0xe5bc3909, 0xb62ec4bc, 0xc74c6516);
    Turn(ws, vs, 27, Vars(0xb62ec4bc, 0xcde8037d, 0x1c2c2838, 0xc5d53d8d, 0xc74c6516, 0x14383d8e, 0x2823ef91, 0xaa47c347),
         0xbf597fc7, 0x32663c5b, 0x77d37528, 0xedffbff8);
    Turn(ws, vs, 28, Vars(0x77d37528, 0xb62ec4bc, 0xcde8037d, 0x1c2c2838, 0xedffbff8, 0xc74c6516, 0x14383d8e, 0x2823ef91),
         0xc6e00bf3, 0x9d209d67, 0x363482c9, 0x6112a3b7);
    Turn(ws, vs, 29, Vars(0x363482c9, 0x77d37528, 0xb62ec4bc, 0xcde8037d, 0x6112a3b7, 0xedffbff8, 0xc74c6516, 0x14383d8e),
         0xd5a79147, 0xec8726cb, 0xa0060b30, 0xade79437);
    Turn(ws, vs, 30, Vars(0xa0060b30, 0x363482c9, 0x77d37528, 0xb62ec4bc, 0xade79437, 0x6112a3b7, 0xedffbff8, 0xc74c6516),
         0x06ca6351, 0x702138a4, 0xea992a22, 0x0109ab3a);
    Turn(ws, vs, 31, Vars(0xea992a22, 0xa0060b30, 0x363482c9, 0x77d37528, 0x0109ab3a, 0xade79437, 0x6112a3b7, 0xedffbff8),
         0x14292967, 0xd3b7973b, 0x73b33bf5, 0xba591112);
  }

  lemma Rounds32(ws: seq<Word>, vs: seq<Vars<Word>>)
    requires IsTrace(ws, vs)
    ensures vs[40] == Vars(0x79ea687a, 0x6dc57a8a, 0x34df1604, 0x41a65cb1, 0x1efbc0a0, 0xf0781bc8, 0xa507a53d, 0x0772a26b)
  {
    Words32(ws, vs);
    Rounds24(ws, vs);
    Turn(ws, vs, 32, Vars(0x73b33bf5, 0xea992a22, 0xa0060b30, 0x363482c9, 0xba591112, 0x0109ab3a, 0xade79437, 0x6112a3b7),
         0x27b70a85, 0x93f5997f, 0x98e12507, 0x9cd9f5f6);
    Turn(ws, vs, 33, Vars(0x98e12507, 0x73b33bf5, 0xea992a22, 0xa0060b30, 0x9cd9f5f6, 0xba591112, 0x0109ab3a, 0xade79437),
         0x2e1b2138, 0x3b68ba73, 0xfe604df5, 0x59249dd3);
    Turn(ws, vs, 34, Vars(0xfe604df5, 0x98e12507, 0x73b33bf5, 0xea992a22, 0x59249dd3, 0x9cd9f5f6, 0xba591112, 0x0109ab3a),
         0x4d2c6dfc, 0xaff4ffc1, 0xa9a7738c, 0x085f3833);
    Turn(ws, vs, 35, Vars(0xa9a7738c, 0xfe604df5, 0x98e12507, 0x73b33bf5, 0x085f3833, 0x59249dd3, 0x9cd9f5f6, 0xba591112),
         0x53380d13, 0xf10a5c62, 0x65a0cfe4, 0xf4b002d6);
    Turn(ws, vs, 36, Vars(0x65a0cfe4, 0xa9a7738c, 0xfe604df5, 0x98e12507, 0xf4b002d6, 0x085f3833, 0x59249dd3, 0x9cd9f5f6),
         0x650a7354, 0x0a8b3996, 0x41a65cb1, 0x0772a26b);
    Turn(ws, vs, 37, Vars(0x41a65cb1, 0x65a0cfe4, 0xa9a7738c, 0xfe604df5, 0x0772a26b, 0xf4b002d6, 0x085f3833, 0x59249dd3),
         0x766a0abb, 0x72af830a, 0x34df1604, 0xa507a53d);
    Turn(ws, vs, 38, Vars(0x34df1604, 0x41a65cb1, 0x65a0cfe4, 0xa9a7738c, 0xa507a53d, 0x0772a26b, 0xf4b002d6, 0x085f3833),
         0x81c2c92e, 0x9409e33e, 0x6dc57a8a, 0xf0781bc8);
    Turn(ws, vs, 39, Vars(0x6dc57a8a, 0x34df1604, 0x41a65cb1, 0x65a0cfe4, 0xf0781bc8, 0xa507a53d, 0x0772a26b, 0xf4b002d6),
         0x92722c85, 0x24641522, 0x79ea687a, 0x1efbc0a0);
  }

  lemma Rounds40(ws: seq<Word>, vs: seq<Vars<Word>>)
    requires IsTrace(ws, vs)
    ensures vs[48] == Vars(0x4172328d, 0xa14c14b0, 0x72ab4b91, 0x26628815, 0xfecf0bc6, 0xd57b94a9, 0xb7755da1, 0xa80f11f0)
  {
    Words40(ws, vs);
    Rounds32(ws, vs);
    Turn(ws, vs, 40, Vars(0x79ea687a, 0x6dc57a8a, 0x34df1604, 0x41a65cb1, 0x1efbc0a0, 0xf0781bc8, 0xa507a53d, 0x0772a26b),
         0xa2bfe8a1, 0x9f47bf94, 0xd6670766, 0x26352d63);
    Turn(ws, vs, 41, Vars(0xd6670766, 0x79ea687a, 0x6dc57a8a, 0x34df1604, 0x26352d63, 0x1efbc0a0, 0xf0781bc8, 0xa507a53d),
         0xa81a664b, 0xf0a64f5a, 0xdf46652f, 0x838b2711);
    Turn(ws, vs, 42, Vars(0xdf46652f, 0xd6670766, 0x79ea687a, 0x6dc57a8a, 0x838b2711, 0x26352d63, 0x1efbc0a0, 0xf0781bc8),
         0xc24b8b70, 0x3e246a79, 0x17aa0dfe, 0xdecd4715);
    Turn(ws, vs, 43, Vars(0x17aa0dfe, 0xdf46652f, 0xd6670766, 0x79ea687a, 0xdecd4715, 0x838b2711, 0x26352d63, 0x1efbc0a0),
         0xc76c51a3, 0x27333ba3, 0x9d4baf93, 0xfda24c2e);
    Turn(ws, vs, 44, Vars(0x9d4baf93, 0x17aa0dfe, 0xdf46652f, 0xd6670766, 0xfda24c2e, 0xdecd4715, 0x838b2711, 0x26352d63),
         0xd192e819, 0x0c4763f2, 0x26628815, 0xa80f11f0);
    Turn(ws, vs, 45, Vars(0x26628815, 0x9d4baf93, 0x17aa0dfe, 0xdf46652f, 0xa80f11f0, 0xfda24c2e, 0xdecd4715, 0x838b2711),
         0xd6990624, 0x840abf27, 0x72ab4b91, 0xb7755da1);
    Turn(ws, vs, 46, Vars(0x72ab4b91, 0x26628815, 0x9d4baf93, 0x17aa0dfe, 0xb7755da1, 0xa80f11f0, 0xfda24c2e, 0xdecd4715),
         0xf40e3585, 0x7a290d5d, 0xa14c14b0, 0xd57b94a9);
    Turn(ws, vs, 47, Vars(0xa14c14b0, 0x72ab4b91, 0x26628815, 0x9d4baf93, 0xd57b94a9, 0xb7755da1, 0xa80f11f0, 0xfda24c2e),
         0x106aa070, 0x065c43da, 0x4172328d, 0xfecf0bc6);
  }

  lemma Rounds48(ws: seq<Word>, vs: seq<Vars<Word>>)
    requires IsTrace(ws, vs)
    ensures vs[56] == Vars(0x38cc9913, 0x3ec45cdb, 0xf5702fdb, 0x101fd28f, 0x54cb266b, 0xe50e1b4f, 0x9f4787c3, 0x529e7d00)
  {
    Words48(ws, vs);
    Rounds40(ws, vs);
    Turn(ws, vs, 48, Vars(0x4172328d, 0xa14c14b0, 0x72ab4b91, 0x26628815, 0xfecf0bc6, 0xd57b94a9, 0xb7755da1, 0xa80f11f0),
         0x19a4c116, 0xfb3e89cb, 0x05757ceb, 0xbd714038);
    Turn(ws, vs, 49, Vars(0x05757ceb, 0x4172328d, 0xa14c14b0, 0x72ab4b91, 0xbd714038, 0xfecf0bc6, 0xd57b94a9, 0xb7755da1),
         0x1e376c08, 0xcc7617db, 0xf11bfaa8, 0x6e5c390c);
    Turn(ws, vs, 50, Vars(0xf11bfaa8, 0x05757ceb, 0x4172328d, 0xa14c14b0, 0x6e5c390c, 0xbd714038, 0xfecf0bc6, 0xd57b94a9),
         0x2748774c, 0xb9e66c34, 0x7a0508a1, 0x52f1ccf7);
    Turn(ws, vs, 51, Vars(0x7a0508a1, 0xf11bfaa8, 0x05757ceb, 0x4172328d, 0x52f1ccf7, 0x6e5c390c, 0xbd714038, 0xfecf0bc6),
         0x34b0bcb5, 0xa9993667, 0x886e7a22, 0x49231c1e);
    Turn(ws, vs, 52, Vars(0x886e7a22, 0x7a0508a1, 0xf11bfaa8, 0x05757ceb, 0x49231c1e, 0x52f1ccf7, 0x6e5c390c, 0xbd714038),
         0x391c0cb3, 0x84badedd, 0x101fd28f, 0x529e7d00);
    Turn(ws, vs, 53, Vars(0x101fd28f, 0x886e7a22, 0x7a0508a1, 0xf11bfaa8, 0x529e7d00, 0x49231c1e, 0x52f1ccf7, 0x6e5c390c),
         0x4ed8aa4a, 0xc21462bc, 0xf5702fdb, 0x9f4787c3);
    Turn(ws, vs, 54, Vars(0xf5702fdb, 0x101fd28f, 0x886e7a22, 0x7a0508a1, 0x9f4787c3, 0x529e7d00, 0x49231c1e, 0x52f1ccf7),
         0x5b9cca4f, 0x1487472c, 0x3ec45cdb, 0xe50e1b4f);
    Turn(ws, vs, 55, Vars(0x3ec45cdb, 0xf5702fdb, 0x101fd28f, 0x886e7a22, 0xe50e1b4f, 0x9f4787c3, 0x529e7d00, 0x49231c1e),
         0x682e6ff3, 0xb20f7a99, 0x38cc9913, 0x54cb266b);
  }

  lemma Rounds56(ws: seq<Word>, vs: seq<Vars<Word>>)
    requires IsTrace(ws, vs)
    ensures vs[64] == Vars(0x506e3058, 0xd39a2165, 0x04d24d6c, 0xb85e2ce9, 0x5ef50f24, 0xfb121210, 0x948d25b6, 0x961f4894)
  {
    Words56(ws, vs);
    Rounds48(ws, vs);
    Turn(ws, vs, 56, Vars(0x38cc9913, 0x3ec45cdb, 0xf5702fdb, 0x101fd28f, 0x54cb266b, 0xe50e1b4f, 0x9f4787c3, 0x529e7d00),
         0x748f82ee, 0xef57b9cd, 0xfcd1887b, 0x9b5e906c);
    Turn(ws, vs, 57, Vars(0xfcd1887b, 0x38cc9913, 0x3ec45cdb, 0xf5702fdb, 0x9b5e906c, 0x54cb266b, 0xe50e1b4f, 0x9f4787c3),
         0x78a5636f, 0xebe6b238, 0xc062d46f, 0x7e44008e);
    Turn(ws, vs, 58, Vars(0xc062d46f, 0xfcd1887b, 0x38cc9913, 0x3ec45cdb, 0x7e44008e, 0x9b5e906c, 0x54cb266b, 0xe50e1b4f),
         0x84c87814, 0x9fe3095e, 0xffb70472, 0x6d83bfc6);
    Turn(ws, vs, 59, Vars(0xffb70472, 0xc062d46f, 0xfcd1887b, 0x38cc9913, 0x6d83bfc6, 0x7e44008e, 0x9b5e906c, 0x54cb266b),
         0x8cc70208, 0x78bc8d4b, 0xb6ae8fff, 0xb21bad3d);
    Turn(ws, vs, 60, Vars(0xb6ae8fff, 0xffb70472, 0xc062d46f, 0xfcd1887b, 0xb21bad3d, 0x6d83bfc6, 0x7e44008e, 0x9b5e906c),
         0x90befffa, 0xa43fcf15, 0xb85e2ce9, 0x961f4894);
    Turn(ws, vs, 61, Vars(0xb85e2ce9, 0xb6ae8fff, 0xffb70472, 0xc062d46f, 0x961f4894, 0xb21bad3d, 0x6d83bfc6, 0x7e44008e),
         0xa4506ceb, 0x668b2ff8, 0x04d24d6c, 0x948d25b6);
    Turn(ws, vs, 62, Vars(0x04d24d6c, 0xb85e2ce9, 0xb6ae8fff, 0xffb70472, 0x948d25b6, 0x961f4894, 0xb21bad3d, 0x6d83bfc6),
         0xbef9a3f7, 0xeeaba2cc, 0xd39a2165, 0xfb121210);
    Turn(ws, vs, 63, Vars(0xd39a2165, 0x04d24d6c, 0xb85e2ce9, 0xb6ae8fff, 0xfb121210, 0x948d25b6, 0x961f4894, 0xb21bad3d),
         0xc67178f2, 0x12b1edeb, 0x506e3058, 0x5ef50f24);
  }


  lemma {:induction false} BigEndianZero(n: nat)
    ensures BigEndian(0, n) == Zeros(n)
  {
    if n == 0 {
    } else {
      BigEndianZero(n - 1);
      assert Zeros(n - 1) + [0] == Zeros(n);
    }
  }

  lemma PadAbc()
    ensures Pad(ABC) == AbcBlock()
  {
    BigEndianZero(7);
    assert BigEndian(8 * |ABC|, 8) == BigEndian(0, 7) + [24];
    assert Zeros(52) + Zeros(7) == Zeros(59);
  }

  lemma FirstWords(t: nat)
    requires t < 16
    ensures Schedule(FipsOps(), AbcBlock(), t) == if t == 0 then 0x61626380 else if t < 15 then 0 else 24
  {
    var b := AbcBlock();
    if t == 0 {
      assert b[0] == 0x61 && b[1] == 0x62 && b[2] == 0x63 && b[3] == 0x80;
    } else if t < 15 {
      assert b[4 * t] == 0 && b[4 * t + 1] == 0 && b[4 * t + 2] == 0 && b[4 * t + 3] == 0;
    } else {
      assert b[60] == 0 && b[61] == 0 && b[62] == 0 && b[63] == 24;
    }
  }

  function Steps<W>(o: Ops<W>, start: Vars<W>, ws: seq<W>): (vs: seq<Vars<W>>)
    ensures |vs| == |ws| + 1
  {
    seq(|ws| + 1, n requires 0 <= n <= |ws| => Rounds(o, start, ws[..n]))
  }

  lemma StepsTurn<W(!new)>(o: Ops<W>, start: Vars<W>, ws: seq<W>, n: nat)
    requires n < |ws|
    ensures TurnsAt(o, ws, Steps(o, start, ws), n)
  {
    assert ws[..n + 1][..n] == ws[..n];
  }

  lemma WordsMix<W(!new)>(o: Ops<W>, block: seq<Octet>, t: nat)
    requires |block| == 64 && 16 <= t < 64
    ensures MixesAt(o, Words(o, block), t)
  {
  }

  lemma AbcTrace(ws: seq<Word>, start: Vars<Word>)
    requires ws == Words(FipsOps(), AbcBlock())
    requires start == Vars(0x6a09e667, 0xbb67ae85, 0x3c6ef372, 0xa54ff53a, 0x510e527f, 0x9b05688c, 0x1f83d9ab, 0x5be0cd19)
    ensures IsTrace(ws, Steps(FipsOps(), start, ws))
  {
    forall t | 0 <= t < 16
      ensures ws[t] == if t == 0 then 0x61626380 else if t < 15 then 0 else 24
    {
      FirstWords(t);
    }
    forall t | 16 <= t < 64
      ensures MixesAt(FipsOps(), ws, t)
    {
      WordsMix(FipsOps(), AbcBlock(), t);
    }
    forall n | 0 <= n < 64
      ensures TurnsAt(FipsOps(), ws, Steps(FipsOps(), start, ws), n)
    {
      StepsTurn(FipsOps(), start, ws, n);
    }
  }

  lemma LastStep<W>(o: Ops<W>, start: Vars<W>, ws: seq<W>)
    ensures Steps(o, start, ws)[|ws|] == Rounds(o, start, ws)
  {
    assert ws[..|ws|] == ws;
  }

  lemma AbcCompressed(h: seq<Word>)
    requires h == [0x6a09e667, 0xbb67ae85, 0x3c6ef372, 0xa54ff53a, 0x510e527f, 0x9b05688c, 0x1f83d9ab, 0x5be0cd19]
    ensures Compress(FipsOps(), h, AbcBlock())
         == [0xba7816bf, 0x8f01cfea, 0x414140de, 0x5dae2223, 0xb00361a3, 0x96177a9c, 0xb410ff61, 0xf20015ad]
  {
    var ws := Words(FipsOps(), AbcBlock());
    var start := Vars(0x6a09e667, 0xbb67ae85, 0x3c6ef372, 0xa54ff53a, 0x510e527f, 0x9b05688c, 0x1f83d9ab, 0x5be0cd19);
    AbcTrace(ws, start);
    Rounds56(ws, Steps(FipsOps(), start, ws));
    LastStep(FipsOps(), start, ws);
  }

  lemma OneBlock<W>(o: Ops<W>, m: seq<Octet>)
    requires |Pad(m)| == 64
    ensures DigestWith(o, m) == Octets(o, Compress(o, InitialHash(o), Pad(m)))
  {
    var d := Pad(m);
    assert d[0..64] == d;
    assert Chain(Compressor(o), InitialHash(o), d, 0) == InitialHash(o);
  }

  /** Word `n` of the hash value is octets 4n to 4n + 3 of the digest, most significant first. */
  lemma {:induction false} OctetsAt<W>(o: Ops<W>, h: seq<W>, n: nat, k: nat)
    requires n < |h| && k < 4
    ensures Octets(o, h)[4 * n + k] == o.store(h[n], k)
  {
    var last := |h| - 1;
    if n < last {
      OctetsAt(o, h[..last], n, k);
    } else {
      assert k == 0 || k == 1 || k == 2 || k == 3;
    }
  }

  /** Section B.1 of FIPS 180-2: the digest of the three octets "abc". */
  lemma AbcDigest()
    ensures Digest([0x61, 0x62, 0x63])
      == [0xba, 0x78, 0x16, 0xbf, 0x8f, 0x01, 0xcf, 0xea,
         0x41, 0x41, 0x40, 0xde, 0x5d, 0xae, 0x22, 0x23,
         0xb0, 0x03, 0x61, 0xa3, 0x96, 0x17, 0x7a, 0x9c,
         0xb4, 0x10, 0xff, 0x61, 0xf2, 0x00, 0x15, 0xad]
  {
    PadAbc();
    OneBlock(FipsOps(), ABC);
    AbcInitial();
    AbcCompressed(InitialHash(FipsOps()));
    AbcOctets(Compress(FipsOps(), InitialHash(FipsOps()), AbcBlock()));
  }

  lemma AbcInitial()
    ensures InitialHash(FipsOps()) == [0x6a09e667, 0xbb67ae85, 0x3c6ef372, 0xa54ff53a, 0x510e527f, 0x9b05688c, 0x1f83d9ab, 0x5be0cd19]
  {
    var h := InitialHash(FipsOps());
    assert h[0] == InitialWord(0) && h[1] == InitialWord(1) && h[2] == InitialWord(2) && h[3] == InitialWord(3);
    assert h[4] == InitialWord(4) && h[5] == InitialWord(5) && h[6] == InitialWord(6) && h[7] == InitialWord(7);
  }

  lemma WordOctets(h: seq<Word>, n: nat, x: Word)
    requires n < |h| && h[n] == x
    ensures var r := Octets(FipsOps(), h);
            r[4 * n] == Store(x, 0) && r[4 * n + 1] == Store(x, 1) && r[4 * n + 2] == Store(x, 2) && r[4 * n + 3] == Store(x, 3)
  {
    OctetsAt(FipsOps(), h, n, 0);
    OctetsAt(FipsOps(), h, n, 1);
    OctetsAt(FipsOps(), h, n, 2);
    OctetsAt(FipsOps(), h, n, 3);
  }

  lemma AbcOctets(h: seq<Word>)
    requires h == [0xba7816bf, 0x8f01cfea, 0x414140de, 0x5dae2223, 0xb00361a3, 0x96177a9c, 0xb410ff61, 0xf20015ad]
    ensures Octets(FipsOps(), h)
      == [0xba, 0x78, 0x16, 0xbf, 0x8f, 0x01, 0xcf, 0xea,
         0x41, 0x41, 0x40, 0xde, 0x5d, 0xae, 0x22, 0x23,
         0xb0, 0x03, 0x61, 0xa3, 0x96, 0x17, 0x7a, 0x9c,
         0xb4, 0x10, 0xff, 0x61, 0xf2, 0x00, 0x15, 0xad]
  {
    WordOctets(h, 0, 0xba7816bf);
    WordOctets(h, 1, 0x8f01cfea);
    WordOctets(h, 2, 0x414140de);
    WordOctets(h, 3, 0x5dae2223);
    WordOctets(h, 4, 0xb00361a3);
    WordOctets(h, 5, 0x96177a9c);
    WordOctets(h, 6, 0xb410ff61);
    WordOctets(h, 7, 0xf20015ad);
  }
}
