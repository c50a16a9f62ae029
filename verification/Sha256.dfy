/**
 * The boot loader's SHA-256, against the definition in FIPS 180-4 (sections 4.1.2, 4.2.2,
 * 5.1.1, 5.3.3 and 6.2.2).
 *
 * The loops do not depend on what the word operations are, so the computation is stated
 * for any operations and then used with those of the standard.
 */
module Sha256 {

  type Word = bv32
  type Octet = bv8

  /** The word operations the computation is built from. */
  datatype Ops<!W> = Ops(
    load: (Octet, Octet, Octet, Octet) -> W,
    store: (W, int) -> Octet,
    add: (W, W) -> W,
    ch: (W, W, W) -> W,
    maj: (W, W, W) -> W,
    bigSigma0: W -> W,
    bigSigma1: W -> W,
    smallSigma0: W -> W,
    smallSigma1: W -> W,
    k: int -> W,
    h0: int -> W
  )

  // ---------- functions and constants of sections 4.1.2, 4.2.2 and 5.3.3 ----------

  function RotR(x: Word, n: Word): Word
    requires 0 < n < 32
  {
    (x >> n) | (x << (32 - n))
  }

  function ShR(x: Word, n: Word): Word
    requires n < 32
  {
    x >> n
  }

  function Ch(x: Word, y: Word, z: Word): Word { (x & y) ^ (!x & z) }

  function Maj(x: Word, y: Word, z: Word): Word { (x & y) ^ (x & z) ^ (y & z) }

  const K: seq<seq<Word>> := [
    [0x428a2f98, 0x71374491, 0xb5c0fbcf, 0xe9b5dba5, 0x3956c25b, 0x59f111f1, 0x923f82a4, 0xab1c5ed5],
    [0xd807aa98, 0x12835b01, 0x243185be, 0x550c7dc3, 0x72be5d74, 0x80deb1fe, 0x9bdc06a7, 0xc19bf174],
    [0xe49b69c1, 0xefbe4786, 0x0fc19dc6, 0x240ca1cc, 0x2de92c6f, 0x4a7484aa, 0x5cb0a9dc, 0x76f988da],
    [0x983e5152, 0xa831c66d, 0xb00327c8, 0xbf597fc7, 0xc6e00bf3, 0xd5a79147, 0x06ca6351, 0x14292967],
    [0x27b70a85, 0x2e1b2138, 0x4d2c6dfc, 0x53380d13, 0x650a7354, 0x766a0abb, 0x81c2c92e, 0x92722c85],
    [0xa2bfe8a1, 0xa81a664b, 0xc24b8b70, 0xc76c51a3, 0xd192e819, 0xd6990624, 0xf40e3585, 0x106aa070],
    [0x19a4c116, 0x1e376c08, 0x2748774c, 0x34b0bcb5, 0x391c0cb3, 0x4ed8aa4a, 0x5b9cca4f, 0x682e6ff3],
    [0x748f82ee, 0x78a5636f, 0x84c87814, 0x8cc70208, 0x90befffa, 0xa4506ceb, 0xbef9a3f7, 0xc67178f2]
  ]

  const H0: seq<Word> := [
    0x6a09e667, 0xbb67ae85, 0x3c6ef372, 0xa54ff53a, 0x510e527f, 0x9b05688c, 0x1f83d9ab, 0x5be0cd19
  ]

  function Add(x: Word, y: Word): Word { x + y }

  function BigSigma0(x: Word): Word { RotR(x, 2) ^ RotR(x, 13) ^ RotR(x, 22) }

  function BigSigma1(x: Word): Word { RotR(x, 6) ^ RotR(x, 11) ^ RotR(x, 25) }

  function SmallSigma0(x: Word): Word { RotR(x, 7) ^ RotR(x, 18) ^ ShR(x, 3) }

  function SmallSigma1(x: Word): Word { RotR(x, 17) ^ RotR(x, 19) ^ ShR(x, 10) }

  /** Words are stored most significant octet first. */
  function Load(a: Octet, b: Octet, c: Octet, d: Octet): Word {
    (a as Word << 24) | (b as Word << 16) | (c as Word << 8) | d as Word
  }

  function Store(x: Word, i: int): Octet {
    var y: Word := if i == 0 then x >> 24 else if i == 1 then x >> 16 else if i == 2 then x >> 8 else x;
    (y & 0xFF) as Octet
  }

  lemma StoreLoad(a: Octet, b: Octet, c: Octet, d: Octet)
    ensures var x := Load(a, b, c, d); Store(x, 0) == a && Store(x, 1) == b && Store(x, 2) == c && Store(x, 3) == d
  {
  }

  function RoundConstant(i: int): Word {
    if 0 <= i < 64 then K[i / 8][i % 8] else 0
  }

  function InitialWord(i: int): Word {
    if 0 <= i < |H0| then H0[i] else 0
  }

  function FipsOps(): Ops<Word> {
    Ops(Load, Store, Add, Ch, Maj, BigSigma0, BigSigma1, SmallSigma0, SmallSigma1, RoundConstant, InitialWord)
  }

  /** Ch takes each bit from its second argument where the first is one, else from the third. */
  lemma ChSelects(x: Word, y: Word, z: Word)
    ensures Ch(x, y, z) & x == y & x && Ch(x, y, z) & !x == z & !x
  {
  }

  /** Maj takes each bit from the majority. */
  lemma MajIsMajority(x: Word, y: Word, z: Word)
    ensures Maj(x, y, z) == (x & y) | (x & z) | (y & z)
  {
  }

  // ---------- padding, section 5.1.1 ----------

  function BigEndian(x: nat, len: nat): (r: seq<Octet>)
    ensures |r| == len
  {
    if len == 0 then [] else BigEndian(x / 256, len - 1) + [(x % 256) as Octet]
  }

  function Zeros(n: nat): (r: seq<Octet>)
    ensures |r| == n && forall i :: 0 <= i < n ==> r[i] == 0
  {
    seq(n, _ => 0)
  }

  /** A one bit, zeros up to 448 modulo 512, and the bit length in 64 bits. */
  function Pad(m: seq<Octet>): (r: seq<Octet>)
    ensures |r| % 64 == 0
  {
    PadZeros(|m|);
    m + [0x80] + Zeros((55 - |m|) % 64) + BigEndian(8 * |m|, 8)
  }

  lemma PadZeros(n: nat)
    ensures (55 - n) % 64 == if n % 64 < 56 then 55 - n % 64 else 119 - n % 64
    ensures (n + 1 + (55 - n) % 64 + 8) % 64 == 0
    ensures n + 1 + (55 - n) % 64 + 8 == 64 * (n / 64) + if n % 64 < 56 then 64 else 128
  {
    var q, r := n / 64, n % 64;
    assert 55 - n == if r < 56 then 64 * -q + (55 - r) else 64 * (-q - 1) + (119 - r);
  }

  // ---------- hash computation, section 6.2.2 ----------

  /** Message schedule of a block. */
  function Schedule<W>(o: Ops<W>, block: seq<Octet>, t: nat): W
    requires |block| == 64 && t < 64
  {
    if t < 16 then o.load(block[4 * t], block[4 * t + 1], block[4 * t + 2], block[4 * t + 3])
    else o.add(o.add(o.add(o.smallSigma1(Schedule(o, block, t - 2)), Schedule(o, block, t - 7)),
                     o.smallSigma0(Schedule(o, block, t - 15))), Schedule(o, block, t - 16))
  }

  datatype Vars<W> = Vars(a: W, b: W, c: W, d: W, e: W, f: W, g: W, h: W)

  function Round<W>(o: Ops<W>, v: Vars<W>, k: W, w: W): Vars<W> {
    var t1 := o.add(o.add(o.add(o.add(v.h, o.bigSigma1(v.e)), o.ch(v.e, v.f, v.g)), k), w);
    var t2 := o.add(o.bigSigma0(v.a), o.maj(v.a, v.b, v.c));
    Vars(o.add(t1, t2), v.a, v.b, v.c, o.add(v.d, t1), v.e, v.f, v.g)
  }

  /** One round for each word of the schedule. */
  function Rounds<W>(o: Ops<W>, v: Vars<W>, ws: seq<W>): Vars<W> {
    if ws == [] then v
    else
      var n := |ws| - 1;
      Round(o, Rounds(o, v, ws[..n]), o.k(n), ws[n])
  }

  function Words<W>(o: Ops<W>, block: seq<Octet>): (ws: seq<W>)
    requires |block| == 64
    ensures |ws| == 64
  {
    seq(64, t requires 0 <= t < 64 => Schedule(o, block, t))
  }

  function Accumulated<W>(o: Ops<W>, h: seq<W>, v: Vars<W>): (r: seq<W>)
    requires |h| == 8
    ensures |r| == 8
  {
    [o.add(h[0], v.a), o.add(h[1], v.b), o.add(h[2], v.c), o.add(h[3], v.d),
     o.add(h[4], v.e), o.add(h[5], v.f), o.add(h[6], v.g), o.add(h[7], v.h)]
  }

  function Compress<W>(o: Ops<W>, h: seq<W>, block: seq<Octet>): (r: seq<W>)
    requires |h| == 8 && |block| == 64
    ensures |r| == 8
  {
    Accumulated(o, h, Rounds(o, Vars(h[0], h[1], h[2], h[3], h[4], h[5], h[6], h[7]), Words(o, block)))
  }

  /** The compression of one block, as the step that `Chain` repeats. */
  function Compressor<W>(o: Ops<W>): (seq<W>, seq<Octet>) -> seq<W> {
    (h: seq<W>, block: seq<Octet>) => if |h| == 8 && |block| == 64 then Compress(o, h, block) else h
  }

  function InitialHash<W>(o: Ops<W>): (h: seq<W>)
    ensures |h| == 8
  {
    seq(8, i => o.h0(i))
  }

  /** The value after step `f` has been applied to each of the first `n` blocks of `d`. */
  function Chain<W>(f: (seq<W>, seq<Octet>) -> seq<W>, h: seq<W>, d: seq<Octet>, n: nat): seq<W>
    requires 64 * n <= |d|
  {
    if n == 0 then h else f(Chain(f, h, d, n - 1), d[64 * (n - 1)..64 * n])
  }

  function Octets<W>(o: Ops<W>, h: seq<W>): (r: seq<Octet>)
    ensures |r| == 4 * |h|
  {
    if h == [] then []
    else
      var x := h[|h| - 1];
      Octets(o, h[..|h| - 1]) + [o.store(x, 0), o.store(x, 1), o.store(x, 2), o.store(x, 3)]
  }

  function DigestWith<W>(o: Ops<W>, m: seq<Octet>): (r: seq<Octet>) {
    Octets(o, Chain(Compressor(o), InitialHash(o), Pad(m), |Pad(m)| / 64))
  }

  /** SHA-256. */
  function Digest(m: seq<Octet>): (r: seq<Octet>) {
    DigestWith(FipsOps(), m)
  }

  // ---------- the code ----------

  ghost predicate Scheduled<W>(o: Ops<W>, block: seq<Octet>, w: seq<W>, n: nat) {
    |block| == 64 && n <= 64 <= |w| && forall j {:trigger w[j]} :: 0 <= j < n ==> w[j] == Schedule(o, block, j)
  }

  /** The schedule array: sixteen words from the block ... */
  method FillFirst<W>(o: Ops<W>, d: seq<Octet>, off: nat, w: array<W>)
    requires off + 64 <= |d| && w.Length == 64
    modifies w
    ensures Scheduled(o, d[off..off + 64], w[..], 16)
  {
    ghost var block := d[off..off + 64];
    var i := 0;
    while i < 16
      invariant 0 <= i <= 16 && Scheduled(o, block, w[..], i)
    {
      var p := off + i * 4;
      w[i] := o.load(d[p], d[p + 1], d[p + 2], d[p + 3]);
      assert d[p] == block[4 * i] && d[p + 1] == block[4 * i + 1] && d[p + 2] == block[4 * i + 2] && d[p + 3] == block[4 * i + 3];
      i := i + 1;
    }
  }

  /** ... and the rest mixed from them. */
  method FillRest<W>(o: Ops<W>, ghost block: seq<Octet>, w: array<W>)
    requires w.Length == 64 && Scheduled(o, block, w[..], 16)
    modifies w
    ensures Scheduled(o, block, w[..], 64)
  {
    var i := 16;
    while i < 64
      invariant 16 <= i <= 64 && Scheduled(o, block, w[..], i)
    {
      ghost var s := w[..];
      assert s[i - 2] == w[i - 2] && s[i - 7] == w[i - 7] && s[i - 15] == w[i - 15] && s[i - 16] == w[i - 16];
      w[i] := o.add(o.add(o.add(o.smallSigma1(w[i - 2]), w[i - 7]), o.smallSigma0(w[i - 15])), w[i - 16]);
      assert w[i] == Schedule(o, block, i);
      i := i + 1;
    }
  }

  method Accumulate<W>(o: Ops<W>, h: array<W>, v: Vars<W>)
    requires h.Length == 8
    modifies h
    ensures h[..] == Accumulated(o, old(h[..]), v)
  {
    h[0] := o.add(h[0], v.a); h[1] := o.add(h[1], v.b); h[2] := o.add(h[2], v.c); h[3] := o.add(h[3], v.d);
    h[4] := o.add(h[4], v.e); h[5] := o.add(h[5], v.f); h[6] := o.add(h[6], v.g); h[7] := o.add(h[7], v.h);
  }

  /** The rounds on the eight working variables. */
  method RunRounds<W>(o: Ops<W>, w: array<W>, v: Vars<W>) returns (v': Vars<W>)
    requires w.Length == 64
    ensures v' == Rounds(o, v, w[..])
  {
    var a, b, c, d := v.a, v.b, v.c, v.d;
    var e, f, g, hh := v.e, v.f, v.g, v.h;
    var i := 0;
    while i < 64
      invariant 0 <= i <= 64 && Vars(a, b, c, d, e, f, g, hh) == Rounds(o, v, w[..i])
    {
      assert w[..i + 1][..i] == w[..i];
      var t1 := o.add(o.add(o.add(o.add(hh, o.bigSigma1(e)), o.ch(e, f, g)), o.k(i)), w[i]);
      var t2 := o.add(o.bigSigma0(a), o.maj(a, b, c));
      hh := g; g := f; f := e; e := o.add(d, t1);
      d := c; c := b; b := a; a := o.add(t1, t2);
      i := i + 1;
    }
    assert w[..i] == w[..];
    v' := Vars(a, b, c, d, e, f, g, hh);
  }

  /** The compression of one block into the eight words of `h`. */
  method CompressBlock<W(0)>(o: Ops<W>, h: array<W>, dat: seq<Octet>, off: nat)
    requires h.Length == 8 && off + 64 <= |dat|
    modifies h
    ensures h[..] == Compress(o, old(h[..]), dat[off..off + 64])
  {
    var w := new W[64];
    FillFirst(o, dat, off, w);
    FillRest(o, dat[off..off + 64], w);
    assert w[..] == Words(o, dat[off..off + 64]);
    var v := RunRounds(o, w, Vars(h[0], h[1], h[2], h[3], h[4], h[5], h[6], h[7]));
    Accumulate(o, h, v);
  }

  // ---------- blocks of the padded message ----------

  /** The chain over a prefix depends on the prefix only. */
  lemma {:induction false} ChainFrame<W>(f: (seq<W>, seq<Octet>) -> seq<W>, h: seq<W>, d: seq<Octet>, d': seq<Octet>, n: nat)
    requires 64 * n <= |d| && 64 * n <= |d'| && d[..64 * n] == d'[..64 * n]
    ensures Chain(f, h, d, n) == Chain(f, h, d', n)
  {
    if n == 0 {
    } else {
      var k := 64 * (n - 1);
      assert d[..k] == d[..64 * n][..k] && d'[..k] == d'[..64 * n][..k];
      assert d[k..64 * n] == d[..64 * n][k..] && d'[k..64 * n] == d'[..64 * n][k..];
      ChainFrame(f, h, d, d', n - 1);
    }
  }

  ghost predicate Implements<W(!new)>(f: (seq<W>, seq<Octet>) -> seq<W>, o: Ops<W>) {
    forall h, block {:trigger Compress(o, h, block)} :: |h| == 8 && |block| == 64 ==> f(h, block) == Compress(o, h, block)
  }

  method CompressStep<W(0,!new)>(o: Ops<W>, h: array<W>, dat: seq<Octet>, off: nat, ghost f: (seq<W>, seq<Octet>) -> seq<W>)
    requires h.Length == 8 && off + 64 <= |dat| && Implements(f, o)
    modifies h
    ensures h[..] == f(old(h[..]), dat[off..off + 64])
  {
    CompressBlock(o, h, dat, off);
  }

  /** `x` shifted right by `i` octets. */
  function ShiftOctets(x: nat, i: nat): nat {
    if i == 0 then x else ShiftOctets(x / 256, i - 1)
  }

  lemma {:induction false} BigEndianAt(x: nat, len: nat, i: nat)
    requires i < len
    ensures BigEndian(x, len)[len - 1 - i] == (ShiftOctets(x, i) % 256) as Octet
  {
    if i == 0 {
    } else {
      BigEndianAt(x / 256, len - 1, i - 1);
    }
  }

  /** The octets of the padded message after its last full block. */
  function Tail(m: seq<Octet>): (r: seq<Octet>)
    ensures |r| == if |m| % 64 < 56 then 64 else 128
  {
    PadZeros(|m|);
    m[64 * (|m| / 64)..] + [0x80] + Zeros((55 - |m|) % 64) + BigEndian(8 * |m|, 8)
  }

  lemma TailAt(m: seq<Octet>, i: nat)
    requires i < |Tail(m)|
    ensures var rem, total := |m| % 64, |Tail(m)|;
      Tail(m)[i] == if i < rem then m[64 * (|m| / 64) + i]
                    else if i == rem then 0x80
                    else if i < total - 8 then 0
                    else LengthOctet(m, total - 1 - i)
  {
    PadZeros(|m|);
    var total := |Tail(m)|;
    if i >= total - 8 {
      BigEndianAt(8 * |m|, 8, total - 1 - i);
      assert Tail(m)[i] == BigEndian(8 * |m|, 8)[i - (total - 8)];
    }
  }

  lemma PadIsTail(m: seq<Octet>)
    ensures Pad(m) == m[..64 * (|m| / 64)] + Tail(m)
  {
    var k := 64 * (|m| / 64);
    assert m == m[..k] + m[k..];
  }

  /** Octet `i` of the bit length, counted from the least significant. */
  function LengthOctet(m: seq<Octet>, i: nat): Octet {
    (ShiftOctets(8 * |m|, i) % 256) as Octet
  }

  method CopyRest(m: seq<Octet>, block: array<Octet>)
    requires block.Length == 128 && forall j :: 0 <= j < 128 ==> block[j] == 0
    modifies block
    ensures forall j :: 0 <= j < 128 ==> block[j] == if j < |m| % 64 then m[64 * (|m| / 64) + j] else 0
  {
    var full, rem := |m| / 64, |m| % 64;
    var i := 0;
    while i < rem
      invariant 0 <= i <= rem
      invariant forall j :: 0 <= j < 128 ==> block[j] == if j < i then m[64 * full + j] else 0
    {
      block[i] := m[64 * full + i];
      i := i + 1;
    }
  }

  method PutLength(m: seq<Octet>, block: array<Octet>, total: int)
    requires |m| < 0x2000_0000_0000_0000 && block.Length == 128 && 8 <= total <= 128
    modifies block
    ensures forall j :: 0 <= j < 128 ==> block[j] == if total - 8 <= j < total then LengthOctet(m, total - 1 - j) else old(block[j])
  {
    var bits := (|m| * 8) % 0x1_0000_0000_0000_0000;
    assert bits == 8 * |m|;
    var i := 0;
    while i < 8
      invariant 0 <= i <= 8
      invariant forall j :: 0 <= j < 128 ==> block[j] == if total - i <= j < total then LengthOctet(m, total - 1 - j) else old(block[j])
    {
      block[total - 1 - i] := (ShiftOctets(bits, i) % 256) as Octet;
      i := i + 1;
    }
  }

  /** One or two final blocks: the rest of the payload, a one bit, zeros, the bit length. */
  method BuildTail(m: seq<Octet>) returns (block: array<Octet>, total: int)
    requires |m| < 0x2000_0000_0000_0000
    ensures fresh(block) && block.Length == 128 && total == |Tail(m)| && block[..total] == Tail(m)
  {
    var rem := |m| % 64;
    block := new Octet[128](_ => 0);
    CopyRest(m, block);
    block[rem] := 0x80;
    total := if rem < 56 then 64 else 128;
    PutLength(m, block, total);
    forall j | 0 <= j < total ensures block[j] == Tail(m)[j] {
      TailAt(m, j);
    }
  }

  method HashFull<W(0,!new)>(o: Ops<W>, m: seq<Octet>, h: array<W>, ghost f: (seq<W>, seq<Octet>) -> seq<W>, ghost h0: seq<W>)
    requires h.Length == 8 && h[..] == h0 && Implements(f, o)
    modifies h
    ensures h[..] == Chain(f, h0, m, |m| / 64)
  {
    var block := 0;
    while block < |m| / 64
      invariant 0 <= block <= |m| / 64 && h[..] == Chain(f, h0, m, block)
    {
      CompressStep(o, h, m, block * 64, f);
      block := block + 1;
    }
  }

  method HashTail<W(0,!new)>(o: Ops<W>, tail: seq<Octet>, h: array<W>, ghost f: (seq<W>, seq<Octet>) -> seq<W>, ghost h0: seq<W>,
                             ghost pad: seq<Octet>, ghost full: nat, ghost blocks: nat)
    requires |tail| == 64 * blocks && |pad| == 64 * full + |tail| && pad[64 * full..] == tail
    requires h.Length == 8 && h[..] == Chain(f, h0, pad, full) && Implements(f, o)
    modifies h
    ensures h[..] == Chain(f, h0, pad, full + blocks)
  {
    var b := 0;
    ghost var k := 0;
    while b < |tail|
      invariant b == 64 * k && k <= blocks && h[..] == Chain(f, h0, pad, full + k)
    {
      assert tail[b..b + 64] == pad[64 * (full + k)..64 * (full + k + 1)];
      CompressStep(o, h, tail, b, f);
      b, k := b + 64, k + 1;
    }
  }

  /** Full blocks straight from the payload, then the one or two final blocks. */
  method HashPayload<W(0,!new)>(o: Ops<W>, m: seq<Octet>, h: array<W>, ghost f: (seq<W>, seq<Octet>) -> seq<W>, ghost h0: seq<W>)
    requires |m| < 0x2000_0000_0000_0000 && h.Length == 8 && h[..] == h0 && Implements(f, o)
    modifies h
    ensures h[..] == Chain(f, h0, Pad(m), |Pad(m)| / 64)
  {
    HashFull(o, m, h, f, h0);
    var block, total := BuildTail(m);
    PadShape(m);
    ChainFrame(f, h0, m, Pad(m), |m| / 64);
    HashTail(o, block[..total], h, f, h0, Pad(m), |m| / 64, total / 64);
  }

  lemma PadShape(m: seq<Octet>)
    ensures |Pad(m)| == 64 * (|m| / 64) + |Tail(m)| && Pad(m)[64 * (|m| / 64)..] == Tail(m)
    ensures |Tail(m)| == 64 * (|Tail(m)| / 64) && |Pad(m)| / 64 == |m| / 64 + |Tail(m)| / 64
    ensures Pad(m)[..64 * (|m| / 64)] == m[..64 * (|m| / 64)]
  {
    PadIsTail(m);
  }

  /** Measures the payload: 0 and its digest, or -1 when a buffer is missing. */
  method MeasureSha256(payload: array?<Octet>, measurement: array?<Octet>) returns (rc: int)
    requires payload != null ==> payload.Length < 0x2000_0000_0000_0000
    requires measurement != null ==> measurement.Length == 32
    modifies measurement
    ensures rc == if payload == null || measurement == null then -1 else 0
    ensures rc == 0 ==> measurement[..] == Digest(old(payload[..]))
    ensures rc != 0 && measurement != null ==> measurement[..] == old(measurement[..])
  {
    if payload == null || measurement == null {
      return -1;
    }
    var o := FipsOps();
    var h := NewHash(o);
    HashPayload(o, payload[..], h, Compressor(o), InitialHash(o));
    StoreHash(o, h[..], measurement);
    return 0;
  }

  method NewHash<W(0,!new)>(o: Ops<W>) returns (h: array<W>)
    ensures fresh(h) && h.Length == 8 && h[..] == InitialHash(o) && Implements(Compressor(o), o)
  {
    h := new W[8](i => o.h0(i));
    assert h[..] == InitialHash(o);
  }

  method PutWord<W>(o: Ops<W>, x: W, measurement: array<Octet>, i: nat)
    requires 4 * i + 4 <= measurement.Length
    modifies measurement
    ensures measurement[..4 * i + 4] == old(measurement[..4 * i]) + [o.store(x, 0), o.store(x, 1), o.store(x, 2), o.store(x, 3)]
  {
    measurement[i * 4] := o.store(x, 0);
    measurement[i * 4 + 1] := o.store(x, 1);
    measurement[i * 4 + 2] := o.store(x, 2);
    measurement[i * 4 + 3] := o.store(x, 3);
  }

  method StoreHash<W>(o: Ops<W>, h: seq<W>, measurement: array<Octet>)
    requires |h| == 8 && measurement.Length == 32
    modifies measurement
    ensures measurement[..] == Octets(o, h)
  {
    var i := 0;
    while i < 8
      invariant 0 <= i <= 8 && measurement[..4 * i] == Octets(o, h[..i])
    {
      PutWord(o, h[i], measurement, i);
      assert h[..i + 1][..i] == h[..i];
      i := i + 1;
    }
    assert h[..8] == h;
  }

  lemma {:induction false} ChainLength<W>(o: Ops<W>, d: seq<Octet>, n: nat)
    requires 64 * n <= |d|
    ensures |Chain(Compressor(o), InitialHash(o), d, n)| == 8
  {
    if n == 0 {
    } else {
      ChainLength(o, d, n - 1);
    }
  }

  /** A digest has 32 octets. */
  lemma DigestLength(m: seq<Octet>)
    ensures |Digest(m)| == 32
  {
    ChainLength(FipsOps(), Pad(m), |Pad(m)| / 64);
  }
}
