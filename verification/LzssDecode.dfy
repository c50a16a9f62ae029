/**
 * The LZSS decoder: a ring-buffer loop proved equal to an expansion over an unbounded
 * history, and to undo the packing of a token list.
 */
module LzssDecode {
  import opened Basics

  const N := 4096
  const F := 18
  const THRESHOLD := 2

  datatype Token = Lit(b: Byte) | Copy(pos: int, len: nat)

  predicate ValidToken(t: Token) {
    t.Copy? ==> 0 <= t.pos < N && THRESHOLD < t.len <= F
  }

  predicate AllValid(ts: seq<Token>) {
    forall i :: 0 <= i < |ts| ==> ValidToken(ts[i])
  }

  // ---------- meaning: tokens extend a history ----------

  /** How far back ring position `pos` lies when `n` bytes of history have been written. */
  function Distance(n: int, pos: int): (d: int)
    ensures 1 <= d <= N && (n - d - pos) % N == (F - N) % N
  {
    var x := (n + (N - F) - pos) % N;
    if x == 0 then N else x
  }

  /** Append `len` bytes, each the one `d` places before it; `d` may be less than `len`. */
  function CopyBack(h: seq<Byte>, d: int, len: nat): (r: seq<Byte>)
    requires 1 <= d <= |h|
    ensures |r| == |h| + len
    decreases len
  {
    if len == 0 then h else CopyBack(h + [h[|h| - d]], d, len - 1)
  }

  function Push(h: seq<Byte>, t: Token): (r: seq<Byte>)
    requires |h| >= N
    ensures |r| == |h| + if t.Lit? then 1 else t.len
  {
    match t
    case Lit(b) => h + [b]
    case Copy(pos, len) => CopyBack(h, Distance(|h|, pos), len)
  }

  function Expand(h: seq<Byte>, ts: seq<Token>): (r: seq<Byte>)
    requires |h| >= N
    ensures |r| >= |h|
    decreases ts
  {
    if ts == [] then h else Expand(Push(h, ts[0]), ts[1..])
  }

  ghost predicate Begins(whole: seq<Byte>, part: seq<Byte>) {
    |part| <= |whole| && whole[..|part|] == part
  }

  lemma BeginsTransitive(a: seq<Byte>, b: seq<Byte>, c: seq<Byte>)
    requires Begins(a, b) && Begins(b, c)
    ensures Begins(a, c)
  {
    assert a[..|c|] == a[..|b|][..|c|];
  }

  lemma {:induction false} CopyBackBegins(h: seq<Byte>, d: int, len: nat)
    requires 1 <= d <= |h|
    ensures Begins(CopyBack(h, d, len), h)
    decreases len
  {
    if len == 0 {
    } else {
      var h' := h + [h[|h| - d]];
      CopyBackBegins(h', d, len - 1);
      BeginsTransitive(CopyBack(h', d, len - 1), h', h);
    }
  }

  lemma PushBegins(h: seq<Byte>, t: Token)
    requires |h| >= N
    ensures Begins(Push(h, t), h)
  {
    if t.Copy? {
      CopyBackBegins(h, Distance(|h|, t.pos), t.len);
    }
  }

  /** Decoding only ever appends. */
  lemma {:induction false} ExpandBegins(h: seq<Byte>, ts: seq<Token>)
    requires |h| >= N
    ensures Begins(Expand(h, ts), h)
    decreases ts
  {
    if ts == [] {
    } else {
      PushBegins(h, ts[0]);
      ExpandBegins(Push(h, ts[0]), ts[1..]);
      BeginsTransitive(Expand(h, ts), Push(h, ts[0]), h);
    }
  }

  /** A copy repeats the last `d` bytes of the history, also where it overlaps itself. */
  lemma {:induction false} CopyBackRepeats(h: seq<Byte>, d: int, len: nat, t: int)
    requires 1 <= d <= |h| && |h| <= t < |h| + len
    ensures CopyBack(h, d, len)[t] == CopyBack(h, d, len)[t - d]
    ensures CopyBack(h, d, len)[t] == h[|h| - d + (t - |h|) % d]
    decreases len
  {
    var h' := h + [h[|h| - d]];
    var r := CopyBack(h', d, len - 1);
    if t == |h| {
      CopyBackBegins(h', d, len - 1);
      assert r[t] == r[..|h'|][t] && r[t - d] == r[..|h'|][t - d];
    } else {
      CopyBackRepeats(h', d, len - 1, t);
      var k := t - |h|;
      assert (k - 1) % d == if k % d == 0 then d - 1 else k % d - 1 by {
        ModStep(k, d);
      }
    }
  }

  lemma ModStep(k: int, d: int)
    requires 1 <= d && 1 <= k
    ensures (k - 1) % d == if k % d == 0 then d - 1 else k % d - 1
  {
    var q, m := k / d, k % d;
    assert k == q * d + m;
    if m == 0 {
      assert k - 1 == (q - 1) * d + (d - 1);
      ModIs(k - 1, q - 1, d - 1, d);
    } else {
      ModIs(k - 1, q, m - 1, d);
    }
  }

  lemma ModIs(x: int, q: int, m: int, d: int)
    requires d >= 1 && 0 <= m < d && x == q * d + m
    ensures x % d == m
  {
    var e := x / d - q;
    assert x == (x / d) * d + x % d;
    assert e * d == m - x % d;
    assert -d < e * d < d;
    assert e == 0;
  }

  /** The history at start: the ring from its write position on.  The first `F` bytes are
      whatever the ring held, because only the bytes before position N - F are set. */
  function Preload(stack: seq<Byte>): (h: seq<Byte>)
    requires |stack| == N + F - 1
    ensures |h| == N
  {
    stack[N - F..N] + seq(N - F, _ => 32)
  }

  /** What a token list expands to. */
  function Output(stack: seq<Byte>, ts: seq<Token>): seq<Byte>
    requires |stack| == N + F - 1
  {
    Expand(Preload(stack), ts)[N..]
  }

  // ---------- syntax: a flag byte, least significant bit first, then up to eight items ----------

  /** The operands of a copy item, as the decoder computes them. */
  function CopyPos(i: Byte, j: Byte): (pos: int)
    ensures 0 <= pos < N
  {
    i as int + j as int / 16 * 256
  }

  function CopyLast(j: Byte): (k: int)
    ensures THRESHOLD <= k < F
  {
    j as int % 16 + THRESHOLD
  }

  function CopyOf(i: Byte, j: Byte): (t: Token)
    ensures ValidToken(t)
  {
    Copy(CopyPos(i, j), CopyLast(j) + 1)
  }

  function Parse(src: seq<Byte>): (ts: seq<Token>)
    decreases |src|, 0
  {
    if src == [] then [] else Group(src[1..], src[0], 8)
  }

  /** `n` items are left in the group, and `bits` holds their flags. */
  function Group(src: seq<Byte>, bits: int, n: nat): (ts: seq<Token>)
    decreases |src|, n + 1
  {
    if n == 0 then Parse(src)
    else if bits % 2 == 1 then
      if src == [] then [] else [Lit(src[0])] + Group(src[1..], bits / 2, n - 1)
    else
      if |src| < 2 then [] else [CopyOf(src[0], src[1])] + Group(src[2..], bits / 2, n - 1)
  }

  // ---------- packing ----------

  function Item(t: Token): seq<Byte>
    requires ValidToken(t)
  {
    match t
    case Lit(b) => [b]
    case Copy(pos, len) => [pos % 256, pos / 256 * 16 + (len - THRESHOLD - 1)]
  }

  function Items(ts: seq<Token>): seq<Byte>
    requires AllValid(ts)
  {
    if ts == [] then [] else Item(ts[0]) + Items(ts[1..])
  }

  function FlagBits(ts: seq<Token>): (bits: nat) {
    if ts == [] then 0 else (if ts[0].Lit? then 1 else 0) + 2 * FlagBits(ts[1..])
  }

  function Pow2(n: nat): (p: nat)
    ensures p >= 1
  {
    if n == 0 then 1 else 2 * Pow2(n - 1)
  }

  lemma {:induction false} FlagBitsBound(ts: seq<Token>, n: nat)
    requires |ts| <= n
    ensures FlagBits(ts) < Pow2(n)
  {
    if ts == [] {
    } else {
      FlagBitsBound(ts[1..], n - 1);
    }
  }

  function FlagByte(ts: seq<Token>): (b: Byte)
    requires |ts| <= 8
  {
    FlagBitsBound(ts, 8);
    assert Pow2(8) == 256;
    FlagBits(ts)
  }

  function PackGroup(ts: seq<Token>): (bytes: seq<Byte>)
    requires AllValid(ts) && |ts| <= 8
  {
    [FlagByte(ts)] + Items(ts)
  }

  /** Groups of eight, each behind its flag byte; the last group may be shorter. */
  function Pack(ts: seq<Token>): seq<Byte>
    requires AllValid(ts)
  {
    if |ts| <= 8 then if ts == [] then [] else PackGroup(ts)
    else PackGroup(ts[..8]) + Pack(ts[8..])
  }

  lemma ItemRoundTrip(t: Token)
    requires ValidToken(t) && t.Copy?
    ensures CopyOf(Item(t)[0], Item(t)[1]) == t
  {
  }

  lemma {:induction false} FlagBitsStep(ts: seq<Token>)
    requires ts != []
    ensures FlagBits(ts) % 2 == (if ts[0].Lit? then 1 else 0) && FlagBits(ts) / 2 == FlagBits(ts[1..])
  {
  }

  /** One step of the parser over an item and what follows it. */
  lemma {:induction false} GroupStep(t: Token, bits: int, n: nat, tail: seq<Byte>)
    requires ValidToken(t) && n > 0 && bits % 2 == (if t.Lit? then 1 else 0)
    ensures Group(Item(t) + tail, bits, n) == [t] + Group(tail, bits / 2, n - 1)
  {
    var src := Item(t) + tail;
    if t.Lit? {
      assert src[1..] == tail;
    } else {
      ItemRoundTrip(t);
      assert src[2..] == tail;
    }
  }

  lemma {:induction false} ItemsStep(ts: seq<Token>, rest: seq<Byte>)
    requires AllValid(ts) && ts != []
    ensures Items(ts) + rest == Item(ts[0]) + (Items(ts[1..]) + rest)
  {
  }

  lemma HeadTail(ts: seq<Token>, more: seq<Token>)
    requires ts != []
    ensures [ts[0]] + (ts[1..] + more) == ts + more
  {
  }

  /** A group's items parse back to its tokens, and exactly `n` of them are taken. */
  lemma {:induction false} GroupOfItems(ts: seq<Token>, n: nat, rest: seq<Byte>)
    requires AllValid(ts)
    requires |ts| == n || (|ts| < n && rest == [])
    ensures Group(Items(ts) + rest, FlagBits(ts), n) == ts + if |ts| == n then Parse(rest) else []
  {
    if ts == [] {
      assert Items(ts) + rest == rest;
    } else {
      var tail, more := Items(ts[1..]) + rest, if |ts| == n then Parse(rest) else [];
      FlagBitsStep(ts);
      calc {
        Group(Items(ts) + rest, FlagBits(ts), n);
        { ItemsStep(ts, rest); }
        Group(Item(ts[0]) + tail, FlagBits(ts), n);
        { GroupStep(ts[0], FlagBits(ts), n, tail); }
        [ts[0]] + Group(tail, FlagBits(ts[1..]), n - 1);
        { GroupOfItems(ts[1..], n - 1, rest); }
        [ts[0]] + (ts[1..] + more);
        { HeadTail(ts, more); }
        ts + more;
      }
    }
  }

  lemma {:induction false} ParseGroup(ts: seq<Token>, rest: seq<Byte>)
    requires AllValid(ts) && |ts| <= 8 && (|ts| == 8 || rest == [])
    ensures Parse(PackGroup(ts) + rest) == ts + if |ts| == 8 then Parse(rest) else []
  {
    var src := PackGroup(ts) + rest;
    assert src[1..] == Items(ts) + rest;
    GroupOfItems(ts, 8, rest);
  }

  /** Packing loses nothing: the parser serves exactly eight items per flag byte. */
  lemma {:induction false} ParsePack(ts: seq<Token>)
    requires AllValid(ts)
    ensures Parse(Pack(ts)) == ts
    decreases |ts|
  {
    if ts == [] {
    } else if |ts| <= 8 {
      ParseGroup(ts, []);
      assert PackGroup(ts) + [] == PackGroup(ts);
      assert ts + [] == ts;
      if |ts| == 8 {
        assert Parse([]) == [];
      }
    } else {
      ParsePack(ts[8..]);
      ParseGroup(ts[..8], Pack(ts[8..]));
      assert ts == ts[..8] + ts[8..];
    }
  }

  // ---------- the decoder ----------

  /** Ring position of history index `t`. */
  function Slot(t: int): (r: int)
    ensures 0 <= r < N
  {
    (t + (N - F)) % N
  }

  /** The ring's bytes from its write position on, oldest first. */
  function Rotated(ring: seq<Byte>, r: int): (s: seq<Byte>)
    requires 0 <= r < N <= |ring|
    ensures |s| == N
  {
    ring[r..N] + ring[..r]
  }

  /** The ring holds the last N bytes of the history, and `r` is where the next one goes. */
  ghost predicate RingHolds(ring: seq<Byte>, r: int, h: seq<Byte>) {
    && |ring| == N + F - 1 && |h| >= N && r == Slot(|h|)
    && forall k :: 0 <= k < N ==> Rotated(ring, r)[k] == h[|h| - N + k]
  }

  lemma RotatedAt(ring: seq<Byte>, r: int, k: int)
    requires 0 <= r < N <= |ring| && 0 <= k < N
    ensures Rotated(ring, r)[k] == ring[if r + k < N then r + k else r + k - N]
  {
  }

  lemma RingPushAt(ring: seq<Byte>, r: int, h: seq<Byte>, c: Byte, k: int)
    requires RingHolds(ring, r, h) && 0 <= k < N
    ensures Rotated(ring[r := c], (r + 1) % N)[k] == (h + [c])[|h| + 1 - N + k]
  {
    RotatedAt(ring[r := c], (r + 1) % N, k);
    if k < N - 1 {
      RotatedAt(ring, r, k + 1);
    }
  }

  lemma RingPush(ring: seq<Byte>, r: int, h: seq<Byte>, c: Byte)
    requires RingHolds(ring, r, h)
    ensures RingHolds(ring[r := c], (r + 1) % N, h + [c])
  {
    var ring', h', r' := ring[r := c], h + [c], (r + 1) % N;
    forall k | 0 <= k < N ensures Rotated(ring', r')[k] == h'[|h'| - N + k] {
      RingPushAt(ring, r, h, c, k);
    }
  }

  /** Where the ring keeps the byte `d` places back. */
  lemma RingAt(ring: seq<Byte>, r: int, h: seq<Byte>, pos: int)
    requires RingHolds(ring, r, h)
    ensures ring[pos % N] == h[|h| - Distance(|h|, pos)]
  {
    var d := Distance(|h|, pos);
    var q := if d <= r then r - d else r - d + N;
    assert pos % N == q;
    RotatedAt(ring, r, N - d);
  }

  /** The byte the ring gives for a copy is the next one of the copy, and the distance
      stays the same from byte to byte. */
  lemma RingRead(ring: seq<Byte>, r: int, h: seq<Byte>, pos: int, k: nat, len: nat, h': seq<Byte>)
    requires |h| >= N && k < len && Distance(|h|, pos) == Distance(|h'|, pos + k)
    requires RingHolds(ring, r, h') && h' == Push(h, Copy(pos, len))[..|h| + k]
    ensures h' + [ring[(pos + k) % N]] == Push(h, Copy(pos, len))[..|h| + k + 1]
    ensures Distance(|h'| + 1, pos + k + 1) == Distance(|h|, pos)
  {
    RingAt(ring, r, h', pos + k);
    CopyBackRepeats(h, Distance(|h|, pos), len, |h| + k);
    OneMore(Push(h, Copy(pos, len)), |h| + k, h', ring[(pos + k) % N]);
  }

  lemma OneMore(r: seq<Byte>, n: nat, p: seq<Byte>, x: Byte)
    requires n < |r| && p == r[..n] && r[n] == x
    ensures p + [x] == r[..n + 1]
  {
  }

  /** The flag register: `n` flags of the current byte are still to be served, `bits` holds
      them, and above them lie `n` ones and then zeros, with the test bit at position 8. */
  ghost predicate FlagsHold(flags: int, bits: int, n: nat) {
    if n == 0 then 0 <= flags < 512
    else n <= 8 && 0 <= bits < Pow2(n) && flags / 2 == bits + 255 * Pow2(n)
  }

  lemma NextFlag(flags: int, bits: int, n: nat)
    requires FlagsHold(flags, bits, n)
    ensures (flags / 2) / 256 % 2 == 0 <==> n == 0
    ensures n > 0 ==> (flags / 2) % 2 == bits % 2 && FlagsHold(flags / 2, bits / 2, n - 1)
  {
    assert Pow2(0) == 1 && Pow2(1) == 2 && Pow2(2) == 4 && Pow2(3) == 8 && Pow2(4) == 16;
    assert Pow2(5) == 32 && Pow2(6) == 64 && Pow2(7) == 128 && Pow2(8) == 256;
  }

  /** A fresh flag byte serves eight items: the first now, seven more afterwards. */
  lemma FirstFlag(c: Byte)
    ensures FlagsHold(c + 0xFF00, c / 2, 7)
    ensures (c + 0xFF00) % 2 == c % 2
  {
    assert Pow2(0) == 1 && Pow2(1) == 2 && Pow2(2) == 4 && Pow2(3) == 8 && Pow2(4) == 16;
    assert Pow2(5) == 32 && Pow2(6) == 64 && Pow2(7) == 128;
  }

  /** What is still to be decoded: the tokens of `src[i..]`, with `n` flags pending. */
  function Pending(src: seq<Byte>, i: int, bits: int, n: nat): seq<Token>
    requires 0 <= i <= |src|
  {
    Group(src[i..], bits, n)
  }

  /** `dst` holds, from the start, the bytes the history `h` has beyond `pre`. */
  ghost predicate Wrote(dst: seq<Byte>, d0: seq<Byte>, o: int, pre: seq<Byte>, h: seq<Byte>) {
    && 0 <= o <= |dst| && |dst| == |d0| && h == pre + dst[..o]
    && forall k :: o <= k < |dst| ==> dst[k] == d0[k]
  }

  /** Appends `c` to the output, and to the ring unless the output is now full. */
  method Emit(dst: array<Byte>, dstlen: int, ring: array<Byte>, o: int, r: int, c: Byte,
              ghost d0: seq<Byte>, ghost pre: seq<Byte>, ghost h: seq<Byte>) returns (o': int, r': int)
    requires dst != ring && 0 <= o < dstlen <= dst.Length
    requires RingHolds(ring[..], r, h) && Wrote(dst[..], d0, o, pre, h)
    modifies dst, ring
    ensures o' == o + 1 && Wrote(dst[..], d0, o', pre, h + [c])
    ensures o' < dstlen ==> RingHolds(ring[..], r', h + [c])
  {
    dst[o] := c;
    o', r' := o + 1, r;
    if o' < dstlen {
      RingPush(ring[..], r, h, c);
      ring[r] := c;
      r' := (r + 1) % N;
    }
  }

  /** Copies `j + 1` bytes from ring position `i` on, or as many as the output takes. */
  method CopyRun(dst: array<Byte>, dstlen: int, ring: array<Byte>, o: int, r: int, i: int, j: int,
                 ghost d0: seq<Byte>, ghost pre: seq<Byte>, ghost h: seq<Byte>) returns (o': int, r': int, ghost h': seq<Byte>)
    requires dst != ring && 0 <= o < dstlen <= dst.Length && 0 <= i && 0 <= j
    requires RingHolds(ring[..], r, h) && Wrote(dst[..], d0, o, pre, h)
    modifies dst, ring
    ensures Wrote(dst[..], d0, o', pre, h') && o' <= dstlen && Begins(Push(h, Copy(i, j + 1)), h')
    ensures o' < dstlen ==> h' == Push(h, Copy(i, j + 1)) && RingHolds(ring[..], r', h')
  {
    o', r', h' := o, r, h;
    ghost var all := Push(h, Copy(i, j + 1));
    PushBegins(h, Copy(i, j + 1));
    var k := 0;
    while k <= j
      invariant 0 <= k <= j + 1 && 0 <= o' < dstlen
      invariant RingHolds(ring[..], r', h') && Wrote(dst[..], d0, o', pre, h')
      invariant h' == all[..|h| + k] && Distance(|h'|, i + k) == Distance(|h|, i)
    {
      var c := ring[(i + k) % N];
      RingRead(ring[..], r', h, i, k, j + 1, h');
      o', r' := Emit(dst, dstlen, ring, o', r', c, d0, pre, h');
      h' := h' + [c];
      if o' >= dstlen {
        return;
      }
      k := k + 1;
    }
  }

  /** Decodes `src` into `dst` and returns the number of bytes written.  `stack` is what the
      uninitialised ring happens to hold. */
  method Decompress(dst: array<Byte>, dstlen: int, src: seq<Byte>, stack: seq<Byte>) returns (n: int)
    requires 1 <= dstlen <= dst.Length && |stack| == N + F - 1
    modifies dst
    ensures var out := Output(stack, Parse(src));
      && n == (if |out| < dstlen then |out| else dstlen)
      && dst[..n] == out[..n] && dst[n..] == old(dst[..])[n..]
  {
    ghost var pre, d0 := Preload(stack), dst[..];
    var ring := FillRing(stack);
    ghost var h;
    n, h := DecodeLoop(dst, dstlen, src, ring, d0, pre);
    assert h[N..] == dst[..n];
  }

  /** What was packed comes out expanded, cut to the room there is. */
  method DecompressPacked(dst: array<Byte>, dstlen: int, ts: seq<Token>, stack: seq<Byte>) returns (n: int)
    requires 1 <= dstlen <= dst.Length && |stack| == N + F - 1 && AllValid(ts)
    modifies dst
    ensures var out := Output(stack, ts);
      && n == (if |out| < dstlen then |out| else dstlen)
      && dst[..n] == out[..n] && dst[n..] == old(dst[..])[n..]
  {
    ParsePack(ts);
    n := Decompress(dst, dstlen, Pack(ts), stack);
  }

  /** The ring at start: blanks before the write position N - F, garbage after it. */
  method FillRing(stack: seq<Byte>) returns (ring: array<Byte>)
    requires |stack| == N + F - 1
    ensures fresh(ring) && RingHolds(ring[..], N - F, Preload(stack))
    ensures ring.Length == 4113 && forall k :: 0 <= k < 4113 ==> ring[k] == if k < 4078 then 0x20 else stack[k]
  {
    ring := new Byte[N + F - 1](i requires 0 <= i < |stack| => stack[i]);
    var i := 0;
    while i < N - F
      invariant 0 <= i <= N - F
      invariant forall k :: 0 <= k < ring.Length ==> ring[k] == if k < i then 32 else stack[k]
    {
      ring[i] := 32;
      i := i + 1;
    }
  }

  /** Everything still to come, after the history `h`, amounts to `full`. */
  ghost predicate Remains(full: seq<Byte>, h: seq<Byte>, src: seq<Byte>, s: int, bits: int, n: nat) {
    0 <= s <= |src| && |h| >= N && full == Expand(h, Pending(src, s, bits, n))
  }

  lemma RemainsBegins(full: seq<Byte>, h: seq<Byte>, src: seq<Byte>, s: int, bits: int, n: nat)
    requires Remains(full, h, src, s, bits, n)
    ensures Begins(full, h)
  {
    ExpandBegins(h, Pending(src, s, bits, n));
  }

  /** Shifts the flag register, and refills it from `src` after eight items. */
  method NextFlags(src: seq<Byte>, s: int, flags: int, ghost bits: int, ghost n: nat, ghost full: seq<Byte>, ghost h: seq<Byte>)
    returns (more: bool, s': int, flags': int, ghost bits': int, ghost n': nat)
    requires FlagsHold(flags, bits, n) && Remains(full, h, src, s, bits, n)
    ensures !more ==> full == h
    ensures more ==> s <= s' && n' > 0 && Remains(full, h, src, s', bits', n')
    ensures more ==> flags' % 2 == bits' % 2 && FlagsHold(flags', bits' / 2, n' - 1)
  {
    NextFlag(flags, bits, n);
    more, s', flags', bits', n' := true, s, flags / 2, bits, n;
    if flags' / 256 % 2 == 0 {
      if s >= |src| {
        NoMoreGroups(h, src, bits);
        more := false;
        return;
      }
      flags' := src[s] as int + 0xFF00;
      FirstFlag(src[s]);
      s' := s + 1;
      NextGroup(src, s', bits);
      bits', n' := src[s], 8;
    }
  }

  /** Reads the two bytes of a copy item. */
  method ReadCopy(src: seq<Byte>, s: int, ghost bits: int, ghost n: nat, ghost full: seq<Byte>, ghost h: seq<Byte>)
    returns (more: bool, s': int, i: int, j: int)
    requires n > 0 && bits % 2 == 0 && Remains(full, h, src, s, bits, n)
    ensures !more ==> full == h
    ensures more ==> s < s' && 0 <= i && 0 <= j && Remains(full, Push(h, Copy(i, j + 1)), src, s', bits / 2, n - 1)
  {
    more, s', i, j := false, s, 0, 0;
    NextCopy(h, src, s, bits, n);
    if s' < |src| {
      i := src[s'];
      s' := s' + 1;
      if s' < |src| {
        j := src[s'];
        s' := s' + 1;
        i := i + j / 16 * 256;
        j := j % 16 + THRESHOLD;
        assert Copy(i, j + 1) == CopyOf(src[s], src[s + 1]);
        more := true;
      }
    }
  }

  /** One literal: reads a byte and emits it. */
  method LiteralItem(dst: array<Byte>, dstlen: int, src: seq<Byte>, ring: array<Byte>, o: int, r: int, s: int,
                     ghost bits: int, ghost n: nat, ghost full: seq<Byte>, ghost d0: seq<Byte>, ghost pre: seq<Byte>, ghost h: seq<Byte>)
    returns (more: bool, o': int, r': int, s': int, ghost h': seq<Byte>)
    requires dst != ring && 0 <= o < dstlen <= dst.Length
    requires RingHolds(ring[..], r, h) && Wrote(dst[..], d0, o, pre, h)
    requires n > 0 && bits % 2 == 1 && Remains(full, h, src, s, bits, n)
    modifies dst, ring
    ensures Wrote(dst[..], d0, o', pre, h') && o' <= dstlen && (!more ==> Begins(full, h') && (o' < dstlen ==> full == h'))
    ensures more ==> s < s' && o' < dstlen && RingHolds(ring[..], r', h') && Remains(full, h', src, s', bits / 2, n - 1)
  {
    more, o', r', s', h' := false, o, r, s, h;
    NextLiteral(h, src, s, bits, n);
    if s < |src| {
      o', r' := Emit(dst, dstlen, ring, o, r, src[s], d0, pre, h);
      h', s', more := h + [src[s]], s + 1, o' < dstlen;
      RemainsBegins(full, h', src, s', bits / 2, n - 1);
    }
  }

  /** One copy: reads its two bytes and emits the bytes they stand for. */
  method CopyItem(dst: array<Byte>, dstlen: int, src: seq<Byte>, ring: array<Byte>, o: int, r: int, s: int,
                  ghost bits: int, ghost n: nat, ghost full: seq<Byte>, ghost d0: seq<Byte>, ghost pre: seq<Byte>, ghost h: seq<Byte>)
    returns (more: bool, o': int, r': int, s': int, ghost h': seq<Byte>)
    requires dst != ring && 0 <= o < dstlen <= dst.Length
    requires RingHolds(ring[..], r, h) && Wrote(dst[..], d0, o, pre, h)
    requires n > 0 && bits % 2 == 0 && Remains(full, h, src, s, bits, n)
    modifies dst, ring
    ensures Wrote(dst[..], d0, o', pre, h') && o' <= dstlen && (!more ==> Begins(full, h') && (o' < dstlen ==> full == h'))
    ensures more ==> s < s' && o' < dstlen && RingHolds(ring[..], r', h') && Remains(full, h', src, s', bits / 2, n - 1)
  {
    o', r', h' := o, r, h;
    var i, j;
    more, s', i, j := ReadCopy(src, s, bits, n, full, h);
    if more {
      RemainsBegins(full, Push(h, Copy(i, j + 1)), src, s', bits / 2, n - 1);
      o', r', h' := CopyRun(dst, dstlen, ring, o, r, i, j, d0, pre, h);
      BeginsTransitive(full, Push(h, Copy(i, j + 1)), h');
      more := o' < dstlen;
    }
  }

  method NextItem(literal: bool, dst: array<Byte>, dstlen: int, src: seq<Byte>, ring: array<Byte>, o: int, r: int, s: int,
                  ghost bits: int, ghost n: nat, ghost full: seq<Byte>, ghost d0: seq<Byte>, ghost pre: seq<Byte>, ghost h: seq<Byte>)
    returns (more: bool, o': int, r': int, s': int, ghost h': seq<Byte>)
    requires dst != ring && 0 <= o < dstlen <= dst.Length
    requires RingHolds(ring[..], r, h) && Wrote(dst[..], d0, o, pre, h)
    requires n > 0 && (literal <==> bits % 2 == 1) && Remains(full, h, src, s, bits, n)
    modifies dst, ring
    ensures Wrote(dst[..], d0, o', pre, h') && o' <= dstlen && (!more ==> Begins(full, h') && (o' < dstlen ==> full == h'))
    ensures more ==> s < s' && o' < dstlen && RingHolds(ring[..], r', h') && Remains(full, h', src, s', bits / 2, n - 1)
  {
    if literal {
      more, o', r', s', h' := LiteralItem(dst, dstlen, src, ring, o, r, s, bits, n, full, d0, pre, h);
    } else {
      more, o', r', s', h' := CopyItem(dst, dstlen, src, ring, o, r, s, bits, n, full, d0, pre, h);
    }
  }

  /** One turn of the loop: a flag, then the item it announces. */
  method Turn(dst: array<Byte>, dstlen: int, src: seq<Byte>, ring: array<Byte>, o: int, r: int, s: int, flags: int,
              ghost bits: int, ghost n: nat, ghost full: seq<Byte>, ghost d0: seq<Byte>, ghost pre: seq<Byte>, ghost h: seq<Byte>)
    returns (more: bool, o': int, r': int, s': int, flags': int, ghost bits': int, ghost n': nat, ghost h': seq<Byte>)
    requires dst != ring && 0 <= o < dstlen <= dst.Length
    requires RingHolds(ring[..], r, h) && Wrote(dst[..], d0, o, pre, h)
    requires FlagsHold(flags, bits, n) && Remains(full, h, src, s, bits, n)
    modifies dst, ring
    ensures Wrote(dst[..], d0, o', pre, h') && o' <= dstlen && (!more ==> Begins(full, h') && (o' < dstlen ==> full == h'))
    ensures more ==> s < s' && o' < dstlen && RingHolds(ring[..], r', h')
    ensures more ==> FlagsHold(flags', bits', n') && Remains(full, h', src, s', bits', n')
  {
    o', r', h' := o, r, h;
    more, s', flags', bits', n' := NextFlags(src, s, flags, bits, n, full, h);
    if more {
      more, o', r', s', h' := NextItem(flags' % 2 == 1, dst, dstlen, src, ring, o, r, s', bits', n', full, d0, pre, h);
      bits', n' := bits' / 2, n' - 1;
    }
  }

  method DecodeLoop(dst: array<Byte>, dstlen: int, src: seq<Byte>, ring: array<Byte>, ghost d0: seq<Byte>, ghost pre: seq<Byte>)
    returns (o: int, ghost h: seq<Byte>)
    requires dst != ring && 1 <= dstlen <= dst.Length && d0 == dst[..]
    requires RingHolds(ring[..], N - F, pre)
    modifies dst, ring
    ensures Wrote(dst[..], d0, o, pre, h) && o <= dstlen && Begins(Expand(pre, Parse(src)), h)
    ensures o < dstlen ==> h == Expand(pre, Parse(src))
  {
    var r, flags, s := N - F, 0, 0;
    o, h := 0, pre;
    ghost var bits: int, n: nat := 0, 0;
    ghost var full := Expand(h, Parse(src));
    assert src[0..] == src;
    var more := true;
    while more
      invariant o <= dstlen && Wrote(dst[..], d0, o, pre, h)
      invariant !more ==> Begins(full, h) && (o < dstlen ==> full == h)
      invariant more ==> o < dstlen && RingHolds(ring[..], r, h) && FlagsHold(flags, bits, n) && Remains(full, h, src, s, bits, n)
      decreases more, |src| - s
    {
      more, o, r, s, flags, bits, n, h := Turn(dst, dstlen, src, ring, o, r, s, flags, bits, n, full, d0, pre, h);
    }
  }

  lemma {:induction false} NoMoreGroups(h: seq<Byte>, src: seq<Byte>, bits: int)
    requires |h| >= N
    ensures Expand(h, Pending(src, |src|, bits, 0)) == h
  {
    assert src[|src|..] == [];
    assert Parse([]) == [];
  }

  lemma NextGroup(src: seq<Byte>, s: int, bits: int)
    requires 1 <= s <= |src|
    ensures Pending(src, s - 1, bits, 0) == Pending(src, s, src[s - 1], 8)
  {
    var x := src[s - 1..];
    assert x[1..] == src[s..];
    assert Parse(x) == Group(x[1..], x[0], 8);
  }

  lemma {:induction false} ExpandCons(h: seq<Byte>, t: Token, ts: seq<Token>)
    requires |h| >= N
    ensures Expand(h, [t] + ts) == Expand(Push(h, t), ts)
  {
    assert ([t] + ts)[1..] == ts;
  }

  /** A literal: what it does to the history, and what is pending after it. */
  lemma {:induction false} NextLiteral(h: seq<Byte>, src: seq<Byte>, s: int, bits: int, n: nat)
    requires |h| >= N && 0 <= s <= |src| && n > 0 && bits % 2 == 1
    ensures Expand(h, Pending(src, s, bits, n))
         == if s == |src| then h else Expand(h + [src[s]], Pending(src, s + 1, bits / 2, n - 1))
  {
    if s < |src| {
      assert src[s..][1..] == src[s + 1..];
      ExpandCons(h, Lit(src[s]), Pending(src, s + 1, bits / 2, n - 1));
    }
  }

  lemma {:induction false} NextCopy(h: seq<Byte>, src: seq<Byte>, s: int, bits: int, n: nat)
    requires |h| >= N && 0 <= s <= |src| && n > 0 && bits % 2 == 0
    ensures Expand(h, Pending(src, s, bits, n))
         == if |src| - s < 2 then h
            else Expand(Push(h, CopyOf(src[s], src[s + 1])), Pending(src, s + 2, bits / 2, n - 1))
  {
    if |src| - s >= 2 {
      assert src[s..][2..] == src[s + 2..];
      ExpandCons(h, CopyOf(src[s], src[s + 1]), Pending(src, s + 2, bits / 2, n - 1));
    }
  }
}
