/**
 * The Adler-32 checksum with a delayed modulus, against the byte-at-a-time definition of
 * sections 2.2 and 8.2 of RFC 1950.
 */
module Adler32 {
  import opened Basics

  const BASE: int := 65521
  const NMAX: int := 5552

  datatype Sums = Sums(s1: int, s2: int)

  // ---------- definition ----------

  function Update(s: Sums, b: Byte): Sums {
    var s1 := (s.s1 + b) % BASE;
    Sums(s1, (s.s2 + s1) % BASE)
  }

  function Checksum(data: seq<Byte>): (s: Sums)
    ensures 0 <= s.s1 < BASE && 0 <= s.s2 < BASE
  {
    if data == [] then Sums(1, 0) else Update(Checksum(data[..|data| - 1]), data[|data| - 1])
  }

  function Encode(s: Sums): int {
    s.s2 * 65536 + s.s1
  }

  /** Sum of the bytes, and of the bytes weighted by their distance from the end. */
  function Plain(data: seq<Byte>): nat {
    if data == [] then 0 else Plain(data[..|data| - 1]) + data[|data| - 1]
  }

  function Weighted(data: seq<Byte>): nat {
    if data == [] then 0 else Weighted(data[..|data| - 1]) + Plain(data)
  }

  /** The checksum is two sums modulo BASE: position matters only in the second. */
  lemma {:induction false} ChecksumIsTwoSums(data: seq<Byte>)
    ensures Checksum(data).s1 == (1 + Plain(data)) % BASE
    ensures Checksum(data).s2 == (|data| + Weighted(data)) % BASE
  {
    if data == [] {
    } else {
      var d := data[..|data| - 1];
      ChecksumIsTwoSums(d);
      UpdateMod(Sums(1 + Plain(d), |d| + Weighted(d)), Checksum(d), data[|data| - 1]);
    }
  }

  lemma AddMod(a: int, b: int)
    ensures (a % BASE + b) % BASE == (a + b) % BASE
  {
  }

  /** Reducing late makes no difference to a step. */
  lemma UpdateMod(s: Sums, c: Sums, b: Byte)
    requires s.s1 % BASE == c.s1 && s.s2 % BASE == c.s2
    ensures (s.s1 + b) % BASE == Update(c, b).s1
    ensures (s.s2 + (s.s1 + b)) % BASE == Update(c, b).s2
  {
    AddMod(s.s1, b);
    AddMod(s.s2, Update(c, b).s1);
    AddMod(s.s1 + b, s.s2);
  }

  /** The bytes summed, and each times its place counted from the end, starting at one. */
  function Sum(data: seq<Byte>): nat {
    if data == [] then 0 else data[0] as nat + Sum(data[1..])
  }

  function PlaceSum(data: seq<Byte>): nat {
    if data == [] then 0 else |data| * data[0] as nat + PlaceSum(data[1..])
  }

  lemma {:induction false} PlainFront(b: Byte, data: seq<Byte>)
    ensures Plain([b] + data) == b as nat + Plain(data)
  {
    var all := [b] + data;
    if data == [] {
      assert all[..0] == [];
    } else {
      var n := |data| - 1;
      PlainFront(b, data[..n]);
      assert all[..n + 1] == [b] + data[..n];
    }
  }

  lemma {:induction false} WeightedFront(b: Byte, data: seq<Byte>)
    ensures Weighted([b] + data) == (|data| + 1) * b as nat + Weighted(data)
  {
    var all := [b] + data;
    PlainFront(b, data);
    if data == [] {
      assert all[..0] == [];
    } else {
      var n := |data| - 1;
      WeightedFront(b, data[..n]);
      assert all[..n + 1] == [b] + data[..n];
    }
  }

  lemma {:induction false} SumsAgree(data: seq<Byte>)
    ensures Plain(data) == Sum(data) && Weighted(data) == PlaceSum(data)
  {
    if data == [] {
    } else {
      SumsAgree(data[1..]);
      assert data == [data[0]] + data[1..];
      PlainFront(data[0], data[1..]);
      WeightedFront(data[0], data[1..]);
    }
  }

  /** The checksum as a number: section 8.2 of RFC 1950 in one line. */
  lemma ChecksumInNumerals(data: seq<Byte>)
    ensures Encode(Checksum(data)) == 0x1_0000 * ((|data| + PlaceSum(data)) % 65521) + (1 + Sum(data)) % 65521
  {
    ChecksumIsTwoSums(data);
    SumsAgree(data);
  }

  // ---------- bounds on the running sums ----------

  /** Largest value of s1, and of s2, after `j` bytes without a reduction. */
  function Max1(j: nat): nat {
    BASE - 1 + 255 * j
  }

  function Max2(j: nat): nat {
    if j == 0 then BASE - 1 else Max2(j - 1) + Max1(j)
  }

  lemma {:induction false} Max2Closed(j: nat)
    ensures 2 * Max2(j) == 2 * (j + 1) * (BASE - 1) + 255 * j * (j + 1)
  {
    if j == 0 {
    } else {
      Max2Closed(j - 1);
    }
  }

  lemma {:induction false} Max2Monotone(i: nat, j: nat)
    requires i <= j
    ensures Max2(i) <= Max2(j)
    decreases j
  {
    if i == j {
    } else {
      Max2Monotone(i, j - 1);
    }
  }

  /** NMAX is exactly the number of bytes a 32-bit s2 can take between two reductions. */
  lemma {:induction false} ChunkBound(j: nat)
    ensures Max2(j) < 0x1_0000_0000 <==> j <= NMAX
  {
    Max2Closed(NMAX);
    Max2Closed(NMAX + 1);
    if j <= NMAX {
      Max2Monotone(j, NMAX);
    } else {
      Max2Monotone(NMAX + 1, j);
    }
  }

  // ---------- the unrolled steps, in arithmetic that wraps at `w` ----------

  function Do1(s: Sums, buf: seq<Byte>, i: int, w: int): Sums
    requires 0 <= i < |buf| && w > 0
  {
    var s1 := (s.s1 + buf[i]) % w;
    Sums(s1, (s.s2 + s1) % w)
  }

  function Do2(s: Sums, buf: seq<Byte>, i: int, w: int): Sums
    requires 0 <= i && i + 2 <= |buf| && w > 0
  {
    Do1(Do1(s, buf, i, w), buf, i + 1, w)
  }

  function Do4(s: Sums, buf: seq<Byte>, i: int, w: int): Sums
    requires 0 <= i && i + 4 <= |buf| && w > 0
  {
    Do2(Do2(s, buf, i, w), buf, i + 2, w)
  }

  function Do8(s: Sums, buf: seq<Byte>, i: int, w: int): Sums
    requires 0 <= i && i + 8 <= |buf| && w > 0
  {
    Do4(Do4(s, buf, i, w), buf, i + 4, w)
  }

  function Do16(s: Sums, buf: seq<Byte>, i: int, w: int): Sums
    requires 0 <= i && i + 16 <= |buf| && w > 0
  {
    Do8(Do8(s, buf, i, w), buf, i + 8, w)
  }

  /** `s` stands for the checksum of `buf[..p]`, `j` bytes after the last reduction. */
  ghost predicate Tracks(s: Sums, buf: seq<Byte>, p: int, j: int) {
    && 0 <= p <= |buf| && 0 <= j <= NMAX
    && 0 <= s.s1 <= Max1(j) && 0 <= s.s2 <= Max2(j)
    && s.s1 % BASE == Checksum(buf[..p]).s1 && s.s2 % BASE == Checksum(buf[..p]).s2
  }

  lemma NoWrap(x: int, w: int)
    requires 0 <= x < w
    ensures x % w == x
  {
  }

  /** A step keeps track, and nothing wraps. */
  lemma Do1Tracks(s: Sums, buf: seq<Byte>, p: int, j: int, w: int)
    requires Tracks(s, buf, p, j) && p < |buf| && j < NMAX && w >= 0x1_0000_0000
    ensures Do1(s, buf, p, w) == Sums(s.s1 + buf[p], s.s2 + (s.s1 + buf[p]))
    ensures Tracks(Do1(s, buf, p, w), buf, p + 1, j + 1)
  {
    assert Max1(j + 1) == Max1(j) + 255 && Max2(j + 1) == Max2(j) + Max1(j + 1);
    ChunkBound(j + 1);
    NoWrap(s.s1 + buf[p], w);
    NoWrap(s.s2 + (s.s1 + buf[p]), w);
    assert buf[..p + 1][..p] == buf[..p];
    UpdateMod(s, Checksum(buf[..p]), buf[p]);
  }

  lemma Do2Tracks(s: Sums, buf: seq<Byte>, p: int, j: int, w: int)
    requires Tracks(s, buf, p, j) && p + 2 <= |buf| && j + 2 <= NMAX && w >= 0x1_0000_0000
    ensures Tracks(Do2(s, buf, p, w), buf, p + 2, j + 2)
  {
    Do1Tracks(s, buf, p, j, w);
    Do1Tracks(Do1(s, buf, p, w), buf, p + 1, j + 1, w);
  }

  lemma Do4Tracks(s: Sums, buf: seq<Byte>, p: int, j: int, w: int)
    requires Tracks(s, buf, p, j) && p + 4 <= |buf| && j + 4 <= NMAX && w >= 0x1_0000_0000
    ensures Tracks(Do4(s, buf, p, w), buf, p + 4, j + 4)
  {
    Do2Tracks(s, buf, p, j, w);
    Do2Tracks(Do2(s, buf, p, w), buf, p + 2, j + 2, w);
  }

  lemma Do16Tracks(s: Sums, buf: seq<Byte>, p: int, j: int, w: int)
    requires Tracks(s, buf, p, j) && p + 16 <= |buf| && j + 16 <= NMAX && w >= 0x1_0000_0000
    ensures Tracks(Do16(s, buf, p, w), buf, p + 16, j + 16)
  {
    Do4Tracks(s, buf, p, j, w);
    var a := Do4(s, buf, p, w);
    Do4Tracks(a, buf, p + 4, j + 4, w);
    var b := Do4(a, buf, p + 4, w);
    Do4Tracks(b, buf, p + 8, j + 8, w);
    Do4Tracks(Do4(b, buf, p + 8, w), buf, p + 12, j + 12, w);
  }

  lemma Reduced(s: Sums, buf: seq<Byte>, p: int, j: int)
    requires Tracks(s, buf, p, j)
    ensures Tracks(Sums(s.s1 % BASE, s.s2 % BASE), buf, p, 0)
  {
    assert Max1(0) == BASE - 1 && Max2(0) == BASE - 1;
  }

  /** One chunk of `k0` bytes, sixteen at a time and then one at a time. */
  method Chunk(s0: Sums, buf: seq<Byte>, p0: int, k0: int, w: int) returns (s: Sums)
    requires Tracks(s0, buf, p0, 0) && 0 <= k0 <= NMAX && p0 + k0 <= |buf| && w >= 0x1_0000_0000
    ensures Tracks(s, buf, p0 + k0, k0)
  {
    s := s0;
    var p, k := p0, k0;
    while k >= 16
      invariant 0 <= k <= k0 && p == p0 + k0 - k && Tracks(s, buf, p, k0 - k)
    {
      Do16Tracks(s, buf, p, k0 - k, w);
      s := Do16(s, buf, p, w);
      p, k := p + 16, k - 16;
    }
    while k != 0
      invariant 0 <= k <= k0 && p == p0 + k0 - k && Tracks(s, buf, p, k0 - k)
    {
      Do1Tracks(s, buf, p, k0 - k, w);
      s := Do1(s, buf, p, w);
      p, k := p + 1, k - 1;
    }
  }

  /** A chunk and the reduction after it. */
  method ReducedChunk(s0: Sums, buf: seq<Byte>, p: int, k: int, w: int) returns (s: Sums)
    requires Tracks(s0, buf, p, 0) && 0 <= k <= NMAX && p + k <= |buf| && w >= 0x1_0000_0000
    ensures Tracks(s, buf, p + k, 0)
  {
    s := Chunk(s0, buf, p, k, w);
    Reduced(s, buf, p + k, k);
    s := Sums(s.s1 % BASE, s.s2 % BASE);
  }

  /** Reduced sums are the checksum itself. */
  lemma WholeSums(s: Sums, buf: seq<Byte>, p: int)
    requires Tracks(s, buf, p, 0)
    ensures s == Checksum(buf[..p]) && 0 <= s.s1 < BASE && 0 <= s.s2 < BASE
  {
    assert Max1(0) == BASE - 1 && Max2(0) == BASE - 1;
  }

  /** The checksum of the first `len` bytes; `w` is one more than the largest unsigned long,
      which has 32 bits or more.  A negative length checks nothing. */
  method MkextAdler32(buf: seq<Byte>, len: int, w: int) returns (r: int)
    requires len <= |buf| && w >= 0x1_0000_0000
    ensures r == Encode(Checksum(buf[..if len < 0 then 0 else len])) && 0 <= r < 0x1_0000_0000
  {
    var s, p, left := Sums(1, 0), 0, len;
    assert Max1(0) == BASE - 1 && Max2(0) == BASE - 1 && buf[..0] == [];
    while left > 0
      invariant Tracks(s, buf, p, 0) && if len < 0 then p == 0 && left == len else left >= 0 && p + left == len
    {
      var k := if left < NMAX then left else NMAX;
      left := left - k;
      s := ReducedChunk(s, buf, p, k, w);
      p := p + k;
    }
    WholeSums(s, buf, p);
    r := s.s2 * 65536 + s.s1;
  }
}
