/**
 * The safe iterators over a kcdata buffer: items of a 16 byte header and a payload, one after
 * the other, read from bytes that nobody has checked.
 */
module Kcdata {
  import opened Basics

  type Bytes = seq<Byte>

  const HEADER := 16

  const TYPE_ARRAY := 0x11
  const TYPE_CONTAINER_BEGIN := 0x13
  const TYPE_BUFFER_END := 0xF19158ED
  const THREAD_SNAPSHOT := 0x906
  const SHAREDCACHE_LOADINFO := 0x908
  const LIBRARY_LOADINFO := 0x30
  const LIBRARY_LOADINFO64 := 0x31
  const KERN_STACKFRAME := 0x90A
  const KERN_STACKFRAME64 := 0x90B
  const USER_STACKFRAME := 0x90C
  const USER_STACKFRAME64 := 0x90D
  const DONATING_PIDS := 0x907
  const THREAD_DELTA_SNAPSHOT := 0x941
  const CRASHED_THREADID := 0x81A

  const THREAD_SNAPSHOT_V2_SIZE := 104
  const DYLD_UUID_INFO_64_SIZE := 24

  // ---------- numbers in memory ----------

  /** Little-endian. */
  function Number(b: Bytes): nat {
    if b == [] then 0 else b[0] + 256 * Number(b[1..])
  }

  function Digits(x: nat, n: nat): (b: Bytes)
    ensures |b| == n
  {
    if n == 0 then [] else [x % 256] + Digits(x / 256, n - 1)
  }

  function Power(n: nat): nat {
    if n == 0 then 1 else 256 * Power(n - 1)
  }

  lemma {:induction false} NumberOfDigits(x: nat, n: nat)
    requires x < Power(n)
    ensures Number(Digits(x, n)) == x
  {
    if n == 0 {
    } else {
      NumberOfDigits(x / 256, n - 1);
      assert Digits(x, n)[1..] == Digits(x / 256, n - 1);
    }
  }

  lemma {:induction false} NumberBound(b: Bytes)
    ensures Number(b) < Power(|b|)
  {
    if b == [] {
    } else {
      NumberBound(b[1..]);
    }
  }

  // ---------- items and iterators ----------

  datatype Header = Header(kind: nat, size: nat, flags: nat)

  /** The header at an address. */
  function HeaderAt(m: Bytes, a: nat): Header
    requires a + HEADER <= |m|
  {
    Header(Number(m[a..a + 4]), Number(m[a + 4..a + 8]), Number(m[a + 8..a + 16]))
  }

  lemma Powers()
    ensures Power(4) == 0x1_0000_0000 && Power(8) == 0x1_0000_0000_0000_0000
  {
    assert Power(2) == 0x1_0000;
    assert Power(4) == 256 * 256 * Power(2);
    assert Power(6) == 256 * 256 * Power(4);
    assert Power(8) == 256 * 256 * Power(6);
  }

  /** Whatever the bytes are, the fields are words of 32, 32 and 64 bits. */
  lemma FieldsFit(m: Bytes, a: nat)
    requires a + HEADER <= |m|
    ensures var h := HeaderAt(m, a);
      h.kind < 0x1_0000_0000 && h.size < 0x1_0000_0000 && h.flags < 0x1_0000_0000_0000_0000
  {
    Powers();
    NumberBound(m[a..a + 4]);
    NumberBound(m[a + 4..a + 8]);
    NumberBound(m[a + 8..a + 16]);
  }

  /** An item's address and the end of its buffer.  Addresses index memory. */
  datatype Iter = Iter(item: nat, end: nat)

  /** Memory with an iterator into it.  The buffer lies in memory; nothing is known of its bytes. */
  predicate InMemory(m: Bytes, it: Iter) {
    it.end <= |m|
  }

  const INVALID := Iter(0, 0)

  predicate Valid(m: Bytes, it: Iter)
    requires InMemory(m, it)
  {
    it.item + HEADER <= it.end && it.item + HEADER + HeaderAt(m, it.item).size <= it.end
  }

  function Next(m: Bytes, it: Iter): (r: Iter)
    requires InMemory(m, it) && Valid(m, it)
    ensures it.item < r.item <= r.end == it.end
  {
    it.(item := it.item + HEADER + HeaderAt(m, it.item).size)
  }

  /** Padded arrays all count as arrays. */
  function Kind(h: Header): (r: nat)
    ensures r == TYPE_ARRAY <==> h.kind == TYPE_ARRAY || 0x20 <= h.kind <= 0x2f
    ensures r != TYPE_ARRAY ==> r == h.kind
  {
    if h.kind / 16 == 2 then TYPE_ARRAY else h.kind
  }

  /** An item the traversal stops at no sooner than past it. */
  predicate Live(m: Bytes, it: Iter)
    requires InMemory(m, it)
  {
    Valid(m, it) && HeaderAt(m, it.item).kind != TYPE_BUFFER_END
  }

  /** Where a traversal that is not broken off ends: no valid item, or the end marker. */
  function Last(m: Bytes, it: Iter): (r: Iter)
    requires InMemory(m, it)
    ensures InMemory(m, r) && !Live(m, r) && it.item <= r.item && r.end == it.end
    decreases it.end - it.item
  {
    if Live(m, it) then Last(m, Next(m, it)) else it
  }

  /** The addresses it visits. */
  function Walk(m: Bytes, it: Iter): (r: seq<nat>)
    requires InMemory(m, it)
    decreases it.end - it.item
  {
    if Live(m, it) then [it.item] + Walk(m, Next(m, it)) else []
  }

  /** The k-th address of a list, with the address that ends it. */
  function Spot(s: seq<nat>, last: nat, k: nat): nat {
    if k < |s| then s[k] else last
  }

  /** A live item, wholly inside the buffer, and the next address right behind it. */
  predicate Linked(m: Bytes, end: nat, a: nat, next: nat)
    requires end <= |m|
  {
    Live(m, Iter(a, end)) && a + HEADER + HeaderAt(m, a).size == next <= end
  }

  /** Live items end to end, from the iterator's on. */
  ghost predicate Chain(m: Bytes, it: Iter, s: seq<nat>, last: nat)
    requires InMemory(m, it)
  {
    && it.item == Spot(s, last, 0)
    && forall k :: 0 <= k < |s| ==> Linked(m, it.end, s[k], Spot(s, last, k + 1))
  }

  /** The traversal visits items that lie wholly inside the buffer, one right after the other. */
  lemma {:induction false} WalkIsChain(m: Bytes, it: Iter)
    requires InMemory(m, it)
    ensures Chain(m, it, Walk(m, it), Last(m, it).item)
    decreases it.end - it.item
  {
    if !Live(m, it) {
    } else {
      var n, last := Next(m, it), Last(m, it).item;
      WalkIsChain(m, n);
      var w, s := Walk(m, n), Walk(m, it);
      forall k | 0 <= k < |s|
        ensures Linked(m, it.end, s[k], Spot(s, last, k + 1))
      {
        assert Spot(s, last, k + 1) == Spot(w, last, k);
        if k > 0 {
          assert s[k] == w[k - 1] && Linked(m, n.end, w[k - 1], Spot(w, last, k - 1 + 1));
        }
      }
    }
  }

  lemma ChainRest(m: Bytes, it: Iter, s: seq<nat>, last: nat)
    requires InMemory(m, it) && Chain(m, it, s, last) && s != []
    ensures Live(m, it) && Chain(m, Next(m, it), s[1..], last)
  {
    var t, n := s[1..], Next(m, it);
    assert Linked(m, it.end, s[0], Spot(s, last, 1));
    assert Spot(t, last, 0) == Spot(s, last, 1);
    forall k | 0 <= k < |t|
      ensures Linked(m, n.end, t[k], Spot(t, last, k + 1))
    {
      assert Linked(m, it.end, s[k + 1], Spot(s, last, k + 1 + 1));
    }
  }

  lemma WalkStep(m: Bytes, it: Iter)
    requires InMemory(m, it)
    ensures Live(m, it) ==> Walk(m, it) == [it.item] + Walk(m, Next(m, it)) && Last(m, it) == Last(m, Next(m, it))
    ensures !Live(m, it) ==> Walk(m, it) == [] && Last(m, it) == it
  {
  }

  lemma FirstSpot(s: seq<nat>, last: nat, a: nat)
    requires a == Spot(s, last, 0)
    ensures s == [] ==> a == last
    ensures s != [] ==> s == [a] + s[1..]
  {
  }

  /** Nothing else is such a chain up to a point where a traversal ends. */
  lemma {:induction false} ChainIsWalk(m: Bytes, it: Iter, s: seq<nat>, last: nat)
    requires InMemory(m, it) && Chain(m, it, s, last) && !Live(m, Iter(last, it.end))
    ensures s == Walk(m, it) && last == Last(m, it).item
    decreases |s|
  {
    WalkStep(m, it);
    FirstSpot(s, last, it.item);
    if s == [] {
      assert it == Iter(last, it.end);
    } else {
      ChainRest(m, it, s, last);
      ChainIsWalk(m, Next(m, it), s[1..], last);
    }
  }

  /** Items do not overlap and keep their order. */
  lemma {:induction false} WalkIsDisjoint(m: Bytes, it: Iter, j: nat, k: nat)
    requires InMemory(m, it) && j < k < |Walk(m, it)|
    ensures var a, b := Walk(m, it)[j], Walk(m, it)[k];
      it.item <= a && a + HEADER <= b && b + HEADER <= it.end && a + HEADER + HeaderAt(m, a).size <= b
    decreases it.end - it.item
  {
    var n := Next(m, it);
    if j > 0 {
      WalkIsDisjoint(m, n, j - 1, k - 1);
    } else if k > 1 {
      WalkIsDisjoint(m, n, 0, k - 1);
    } else {
      assert Walk(m, it)[1] == Walk(m, n)[0] == n.item;
    }
  }

  // ---------- the loops ----------

  /** The traversal macro: what it visits, and where it leaves the iterator. */
  method ForEach(m: Bytes, start: Iter) returns (visited: seq<nat>, it: Iter)
    requires InMemory(m, start)
    ensures visited == Walk(m, start) && it == Last(m, start)
  {
    it, visited := start, [];
    while Valid(m, it) && HeaderAt(m, it.item).kind != TYPE_BUFFER_END
      invariant InMemory(m, it) && it.end == start.end
      invariant visited + Walk(m, it) == Walk(m, start) && Last(m, it) == Last(m, start)
      decreases it.end - it.item
    {
      visited := visited + [it.item];
      it := Next(m, it);
    }
  }

  /** The test made after a traversal, and what it tells: no end marker was met. */
  predicate Failed(m: Bytes, it: Iter)
    requires InMemory(m, it)
  {
    !Valid(m, it) || HeaderAt(m, it.item).kind != TYPE_BUFFER_END
  }

  /** What kind of item stands at an address. */
  predicate IsKind(m: Bytes, a: nat, kind: nat) {
    a + HEADER <= |m| && Kind(HeaderAt(m, a)) == kind
  }

  predicate NoneBefore(m: Bytes, w: seq<nat>, n: nat, kind: nat) {
    n <= |w| && forall k :: 0 <= k < n ==> !IsKind(m, w[k], kind)
  }

  /** The first visited address of that kind. */
  predicate FirstOf(m: Bytes, w: seq<nat>, a: nat, kind: nat) {
    exists k :: 0 <= k < |w| && w[k] == a && IsKind(m, w[k], kind) && NoneBefore(m, w, k, kind)
  }

  /** The first item of a kind that stands before the end marker, or the invalid iterator. */
  method FindType(m: Bytes, start: Iter, kind: nat) returns (r: Iter)
    requires InMemory(m, start)
    ensures r == INVALID <==> NoneBefore(m, Walk(m, start), |Walk(m, start)|, kind)
    ensures r != INVALID ==> r.end == start.end && FirstOf(m, Walk(m, start), r.item, kind)
  {
    var it := start;
    ghost var w, n := Walk(m, start), 0;
    while Valid(m, it) && HeaderAt(m, it.item).kind != TYPE_BUFFER_END
      invariant InMemory(m, it) && it.end == start.end
      invariant NoneBefore(m, w, n, kind) && w[n..] == Walk(m, it)
      decreases it.end - it.item
    {
      assert w[n] == w[n..][0] == it.item;
      if Kind(HeaderAt(m, it.item)) == kind {
        assert IsKind(m, w[n], kind);
        return it;
      }
      assert w[n + 1..] == w[n..][1..];
      it, n := Next(m, it), n + 1;
    }
    r := INVALID;
  }

  // ---------- sizes ----------

  function Padding(size: nat): nat {
    (16 - size % 16) % 16
  }

  /** Padding is the least that makes a multiple of 16. */
  lemma PaddingIsLeast(size: nat, p: nat)
    ensures (size + Padding(size)) % 16 == 0 && Padding(size) < 16
    ensures (size + p) % 16 == 0 ==> Padding(size) <= p
  {
    var q, r := size / 16, size % 16;
    assert size + Padding(size) == if r == 0 then 16 * q else 16 * (q + 1);
    if r + p < 16 {
      assert size + p == 16 * q + (r + p);
    }
  }

  /** An item that an old kernel padded without recording it. */
  predicate IsLegacy(h: Header, size: nat) {
    h.size == size + Padding(size) && h.flags % 16 == 0 && h.flags / 128 % 2 == 0
  }

  function FlagsPadding(flags: nat): nat {
    flags % 16
  }

  function LegacySize(kind: nat): nat {
    if kind == THREAD_SNAPSHOT then THREAD_SNAPSHOT_V2_SIZE
    else if kind == SHAREDCACHE_LOADINFO then DYLD_UUID_INFO_64_SIZE
    else 0
  }

  /** The size an item reports: never more than what it takes up. */
  function Size(h: Header): (r: nat)
    ensures r <= h.size
  {
    if Kind(h) == TYPE_ARRAY || Kind(h) == TYPE_CONTAINER_BEGIN then h.size
    else if LegacySize(Kind(h)) != 0 && IsLegacy(h, LegacySize(Kind(h))) then LegacySize(Kind(h))
    else if h.size < FlagsPadding(h.flags) then 0
    else h.size - FlagsPadding(h.flags)
  }

  /** The payload stays inside the buffer, whatever the bytes say. */
  lemma PayloadInside(m: Bytes, it: Iter)
    requires InMemory(m, it) && Valid(m, it)
    ensures it.item + HEADER + Size(HeaderAt(m, it.item)) <= it.end
  {
  }

  /** A structure written with its padding recorded reports its own size, also where the same
      kind has a legacy form of the same padded size. */
  lemma RecordedSizeIsExact(kind: nat, size: nat)
    requires Kind(Header(kind, 0, 0)) != TYPE_ARRAY && kind != TYPE_CONTAINER_BEGIN
    ensures Size(Header(kind, size + Padding(size), 0x80 + Padding(size))) == size
  {
  }

  /** So does a legacy structure. */
  lemma LegacySizeIsExact(kind: nat)
    requires LegacySize(kind) != 0
    ensures Size(Header(kind, LegacySize(kind) + Padding(LegacySize(kind)), 0)) == LegacySize(kind)
  {
  }

  // ---------- arrays ----------

  function ElemKind(h: Header): nat {
    h.flags / 0x1_0000_0000 % 0x1_0000_0000
  }

  function ElemCount(h: Header): nat {
    h.flags % 0x1_0000_0000
  }

  /** An array's flags are its two numbers. */
  lemma FlagsSplit(m: Bytes, a: nat)
    requires a + HEADER <= |m|
    ensures var h := HeaderAt(m, a);
      h.flags == ElemKind(h) * 0x1_0000_0000 + ElemCount(h) && ElemKind(h) < 0x1_0000_0000 && ElemCount(h) < 0x1_0000_0000
  {
    FieldsFit(m, a);
  }

  /** The element sizes of arrays that do not tell their padding. */
  function SizeSwitch(kind: nat): nat {
    if kind == LIBRARY_LOADINFO then 20
    else if kind == LIBRARY_LOADINFO64 then 24
    else if kind == KERN_STACKFRAME || kind == USER_STACKFRAME then 8
    else if kind == KERN_STACKFRAME64 || kind == USER_STACKFRAME64 then 16
    else if kind == DONATING_PIDS then 4
    else if kind == THREAD_DELTA_SNAPSHOT then 48
    else if kind == CRASHED_THREADID then 8
    else 0
  }

  predicate ArrayValid(m: Bytes, it: Iter)
    requires InMemory(m, it)
  {
    Valid(m, it) && ArrayOk(HeaderAt(m, it.item))
  }

  predicate ArrayOk(h: Header) {
    var n, pad := ElemCount(h), h.kind % 16;
    if Kind(h) != TYPE_ARRAY then false
    else if n == 0 then h.size == 0
    else if h.kind == TYPE_ARRAY then
      SizeSwitch(ElemKind(h)) != 0 && n <= h.size / SizeSwitch(ElemKind(h)) && h.size % n < 16
    else
      pad <= h.size && n <= h.size - pad && (h.size - pad) % n == 0
  }

  /** Of an array that passed the check. */
  function ElemSize(h: Header): nat
    requires ArrayOk(h)
  {
    if h.kind == TYPE_ARRAY then SizeSwitch(ElemKind(h))
    else if ElemCount(h) == 0 then 0
    else (h.size - h.kind % 16) / ElemCount(h)
  }

  lemma MoreTimes(a: int, b: int, n: nat)
    requires a <= b
    ensures a * n <= b * n
  {
    assert b * n == a * n + (b - a) * n;
  }

  lemma Multiples(n: nat, e: nat, k: nat, j: nat)
    requires k < j <= n
    ensures 0 <= k * e && k * e + e <= j * e <= n * e
  {
    MoreTimes(k + 1, j, e);
    MoreTimes(j, n, e);
    assert (k + 1) * e == k * e + e;
  }

  lemma FitsQuotient(n: nat, e: nat, s: nat)
    requires e > 0 && n <= s / e
    ensures n * e <= s
  {
    assert n * e + (s / e - n) * e == s / e * e <= s;
  }

  lemma DividesExactly(n: nat, s: nat)
    requires 0 < n <= s && s % n == 0
    ensures s / n > 0 && n * (s / n) == s
  {
  }

  /** Padded arrays: elements and padding fill the item exactly.  Other arrays: the elements fit. */
  lemma ArrayFills(h: Header)
    requires ArrayOk(h) && ElemCount(h) != 0
    ensures ElemSize(h) > 0
    ensures h.kind != TYPE_ARRAY ==> ElemCount(h) * ElemSize(h) + h.kind % 16 == h.size
    ensures h.kind == TYPE_ARRAY ==> ElemCount(h) * ElemSize(h) <= h.size
  {
    if h.kind == TYPE_ARRAY {
      FitsQuotient(ElemCount(h), ElemSize(h), h.size);
    } else {
      DividesExactly(ElemCount(h), h.size - h.kind % 16);
    }
  }

  /** Elements lie inside their item and its buffer, and follow each other without overlap. */
  lemma ElementsInside(m: Bytes, it: Iter, k: nat, j: nat)
    requires InMemory(m, it) && ArrayValid(m, it)
    requires k < j <= ElemCount(HeaderAt(m, it.item))
    ensures var h := HeaderAt(m, it.item); var data := it.item + HEADER; var e := ElemSize(h);
      data <= data + k * e && data + k * e + e == data + (k + 1) * e <= data + j * e
      && data + j * e <= data + h.size <= it.end
  {
    var h := HeaderAt(m, it.item);
    ArrayFills(h);
    Multiples(ElemCount(h), ElemSize(h), k, j);
  }

  // ---------- the format in numerals ----------

  /** Words are read with their lowest byte first: the kind, then the size, then the flags. */
  lemma HeaderBytes(m: Bytes, a: nat)
    requires a + 16 <= |m|
    ensures HeaderAt(m, a).kind == m[a] as int + 0x100 * m[a + 1] as int + 0x1_0000 * m[a + 2] as int + 0x100_0000 * m[a + 3] as int
    ensures HeaderAt(m, a).size == m[a + 4] as int + 0x100 * m[a + 5] as int + 0x1_0000 * m[a + 6] as int + 0x100_0000 * m[a + 7] as int
    ensures HeaderAt(m, a).flags == m[a + 8] as int + 0x100 * m[a + 9] as int + 0x1_0000 * m[a + 10] as int + 0x100_0000 * m[a + 11] as int
              + 0x1_0000_0000 * (m[a + 12] as int + 0x100 * m[a + 13] as int + 0x1_0000 * m[a + 14] as int + 0x100_0000 * m[a + 15] as int)
  {
    FourBytes(m[a..a + 4]);
    FourBytes(m[a + 4..a + 8]);
    EightBytes(m[a + 8..a + 16]);
  }

  lemma LowByte(b: Bytes, i: nat)
    requires i < |b|
    ensures Number(b[i..]) == b[i] as int + 256 * Number(b[i + 1..])
  {
    assert b[i..][1..] == b[i + 1..];
  }

  lemma FourBytes(b: Bytes)
    requires |b| == 4
    ensures Number(b) == b[0] as int + 0x100 * b[1] as int + 0x1_0000 * b[2] as int + 0x100_0000 * b[3] as int
  {
    LowByte(b, 1);
    LowByte(b, 2);
    LowByte(b, 3);
    assert b[4..] == [];
  }

  lemma EightBytes(b: Bytes)
    requires |b| == 8
    ensures Number(b) == b[0] as int + 0x100 * b[1] as int + 0x1_0000 * b[2] as int + 0x100_0000 * b[3] as int
              + 0x1_0000_0000 * (b[4] as int + 0x100 * b[5] as int + 0x1_0000 * b[6] as int + 0x100_0000 * b[7] as int)
  {
    FourBytes(b[4..]);
    LowByte(b, 1);
    LowByte(b, 2);
    LowByte(b, 3);
  }

  /** Arrays, containers and padded arrays report the size they are stored with. */
  lemma StoredSizes(h: Header)
    requires h.kind == 0x11 || h.kind == 0x13 || 0x20 <= h.kind <= 0x2f
    ensures Size(h) == h.size
  {
  }

  /** The two legacy structures, of 104 and 24 bytes. */
  lemma LegacyStructures(h: Header)
    requires h.flags % 16 == 0 && h.flags / 128 % 2 == 0
    ensures h.kind == 0x906 && h.size == 112 ==> Size(h) == 104
    ensures h.kind == 0x908 && h.size == 32 ==> Size(h) == 24
  {
  }

  /** Any other structure reports its stored size less the low four bits of its flags. */
  lemma OtherSizes(h: Header)
    requires h.kind !in {0x11, 0x13, 0x906, 0x908} && !(0x20 <= h.kind <= 0x2f)
    ensures Size(h) == if h.size < h.flags % 16 then 0 else h.size - h.flags % 16
  {
  }

  lemma PairSplits(kind: nat, n: nat)
    requires kind < 0x1_0000_0000 && n < 0x1_0000_0000
    ensures var flags := kind * 0x1_0000_0000 + n;
      flags / 0x1_0000_0000 % 0x1_0000_0000 == kind && flags % 0x1_0000_0000 == n
  {
    assert (kind * 0x1_0000_0000 + n) / 0x1_0000_0000 == kind;
  }

  lemma SmallMultiple(d: int, n: int)
    requires n > 0 && -n < d * n < n
    ensures d == 0
  {
    MoreTimes(1, if d >= 1 then d else 1, n);
    MoreTimes(if d <= -1 then d else -1, -1, n);
  }

  lemma Quotient(x: int, q: int, r: int, n: nat)
    requires 0 <= r < n && x == q * n + r
    ensures x / n == q && x % n == r
  {
    var p, m := x / n, x % n;
    assert x == p * n + m;
    assert (p - q) * n == r - m;
    SmallMultiple(p - q, n);
  }

  lemma ProductDivides(n: nat, e: nat)
    requires n > 0
    ensures n * e % n == 0 && n * e / n == e && (e > 0 ==> n <= n * e)
  {
    Quotient(n * e, e, 0, n);
    if e > 0 {
      assert n * e == n + n * (e - 1);
    }
  }

  /** A padded array of `n` elements of `e` bytes each, with any padding below 16, is accepted and
      gives back the kind, the number and the size of its elements. */
  lemma PaddedArrayAccepted(kind: nat, n: nat, e: nat, pad: nat)
    requires kind < 0x1_0000_0000 && 0 < n < 0x1_0000_0000 && e > 0 && pad < 16
    ensures var h := Header(0x20 + pad, n * e + pad, kind * 0x1_0000_0000 + n);
      ArrayOk(h) && ElemKind(h) == kind && ElemCount(h) == n && ElemSize(h) == e
  {
    PairSplits(kind, n);
    ProductDivides(n, e);
  }

  /** The element sizes of arrays of the older form. */
  predicate OldElement(kind: nat, e: nat) {
    || (kind == 0x30 && e == 20) || (kind == 0x31 && e == 24) || (kind == 0x907 && e == 4) || (kind == 0x941 && e == 48)
    || (kind in {0x90A, 0x90C, 0x81A} && e == 8) || (kind in {0x90B, 0x90D} && e == 16)
  }

  lemma PaddedProduct(n: nat, e: nat, pad: nat)
    requires n > 0 && e > 0 && pad < 16
    ensures (n * e + pad) % n < 16 && n <= (n * e + pad) / e
  {
    assert n * e == e * n;
    SumQuotient(e, n, pad);
    SumQuotient(n, e, pad);
  }

  lemma SumQuotient(q: nat, n: nat, pad: nat)
    requires n > 0
    ensures (q * n + pad) / n == q + pad / n && (q * n + pad) % n == pad % n <= pad && pad / n >= 0
  {
    var p, r := pad / n, pad % n;
    assert pad == p * n + r;
    assert q * n + pad == (q + p) * n + r;
    Quotient(q * n + pad, q + p, r, n);
  }

  /** An array of the older form, padded or not, is accepted exactly for those elements. */
  lemma OldArrayAccepted(kind: nat, n: nat, e: nat, pad: nat)
    requires kind < 0x1_0000_0000 && 0 < n < 0x1_0000_0000 && e > 0 && pad < 16 && OldElement(kind, e)
    ensures var h := Header(0x11, n * e + pad, kind * 0x1_0000_0000 + n);
      ArrayOk(h) && ElemKind(h) == kind && ElemCount(h) == n && ElemSize(h) == e
  {
    PairSplits(kind, n);
    PaddedProduct(n, e, pad);
  }

  lemma ArrayRefused(h: Header)
    requires h.kind == 0x11 && h.flags % 0x1_0000_0000 != 0 && forall e :: !OldElement(h.flags / 0x1_0000_0000 % 0x1_0000_0000, e)
    ensures !ArrayOk(h)
  {
    var kind := h.flags / 0x1_0000_0000 % 0x1_0000_0000;
    assert !OldElement(kind, 20) && !OldElement(kind, 24) && !OldElement(kind, 4) && !OldElement(kind, 48)
        && !OldElement(kind, 8) && !OldElement(kind, 16);
  }

  /** An array of no elements is one of no bytes; nothing but the array kinds is an array. */
  lemma EmptyArrays(h: Header)
    ensures h.flags % 0x1_0000_0000 == 0 && (h.kind == 0x11 || 0x20 <= h.kind <= 0x2f) ==> (ArrayOk(h) <==> h.size == 0)
    ensures h.kind != 0x11 && !(0x20 <= h.kind <= 0x2f) ==> !ArrayOk(h)
  {
  }

  /** A traversal stops where no header or no whole item is left, or at the kind 0xF19158ED. */
  lemma StopsWhere(m: Bytes, it: Iter)
    requires InMemory(m, it)
    ensures Live(m, it) <==>
      it.item + 16 <= it.end && HeaderAt(m, it.item).size <= it.end - it.item - 16 && HeaderAt(m, it.item).kind != 0xF19158ED
    ensures Live(m, it) ==> Next(m, it).item == it.item + 16 + HeaderAt(m, it.item).size
  {
  }

  // ---------- a buffer written item by item ----------

  datatype Item = Item(kind: nat, flags: nat, data: Bytes)

  predicate Storable(x: Item) {
    x.kind < Power(4) && x.flags < Power(8) && |x.data| < Power(4)
  }

  function Encode(x: Item): Bytes {
    Digits(x.kind, 4) + Digits(|x.data|, 4) + Digits(x.flags, 8) + x.data
  }

  const END_MARKER := Item(TYPE_BUFFER_END, 0, [])

  /** The items in order, then the end marker. */
  function EncodeAll(items: seq<Item>): Bytes {
    if items == [] then Encode(END_MARKER) else Encode(items[0]) + EncodeAll(items[1..])
  }

  /** The item at an address, as a reader gets it. */
  function Decode(m: Bytes, a: nat): Item
    requires a + HEADER <= |m| && a + HEADER + HeaderAt(m, a).size <= |m|
  {
    var h := HeaderAt(m, a);
    Item(h.kind, h.flags, m[a + HEADER..a + HEADER + h.size])
  }

  lemma FieldsOfEncode(x: Item)
    ensures var b := Encode(x);
      |b| == HEADER + |x.data| && b[0..4] == Digits(x.kind, 4) && b[4..8] == Digits(|x.data|, 4)
      && b[8..16] == Digits(x.flags, 8) && b[16..] == x.data
  {
  }

  lemma SliceOfSlice(m: Bytes, a: nat, n: nat, i: nat, j: nat)
    requires a + n <= |m| && i <= j <= n
    ensures m[a..a + n][i..j] == m[a + i..a + j]
  {
    var b := m[a..a + n];
    assert forall k :: i <= k < j ==> b[k] == m[a + k];
  }

  lemma SlicePart(m: Bytes, a: nat, b: Bytes, i: nat, j: nat, d: Bytes)
    requires a + |b| <= |m| && m[a..a + |b|] == b && i <= j <= |b| && b[i..j] == d
    ensures m[a + i..a + j] == d
  {
    SliceOfSlice(m, a, |b|, i, j);
  }

  lemma EncodedFields(m: Bytes, a: nat, x: Item)
    requires a + |Encode(x)| <= |m| && m[a..a + |Encode(x)|] == Encode(x)
    ensures |Encode(x)| == HEADER + |x.data|
    ensures m[a..a + 4] == Digits(x.kind, 4) && m[a + 4..a + 8] == Digits(|x.data|, 4)
    ensures m[a + 8..a + 16] == Digits(x.flags, 8) && m[a + HEADER..a + HEADER + |x.data|] == x.data
  {
    var b := Encode(x);
    FieldsOfEncode(x);
    SlicePart(m, a, b, 0, 4, Digits(x.kind, 4));
    SlicePart(m, a, b, 4, 8, Digits(|x.data|, 4));
    SlicePart(m, a, b, 8, 16, Digits(x.flags, 8));
    SlicePart(m, a, b, 16, |b|, x.data);
  }

  lemma DecodeEncode(m: Bytes, a: nat, x: Item)
    requires Storable(x) && a + |Encode(x)| <= |m| && m[a..a + |Encode(x)|] == Encode(x)
    ensures |Encode(x)| == HEADER + |x.data| && HeaderAt(m, a) == Header(x.kind, |x.data|, x.flags) && Decode(m, a) == x
  {
    EncodedFields(m, a, x);
    NumberOfDigits(x.kind, 4);
    NumberOfDigits(|x.data|, 4);
    NumberOfDigits(x.flags, 8);
  }

  predicate Reads(m: Bytes, w: seq<nat>, end: nat, items: seq<Item>)
    requires end <= |m|
  {
    |w| == |items| && forall k :: 0 <= k < |w| ==> Valid(m, Iter(w[k], end)) && Decode(m, w[k]) == items[k]
  }

  /** What stands first in a slice of memory. */
  lemma DecodeFirst(m: Bytes, a: nat, end: nat, x: Item, rest: Bytes)
    requires Storable(x) && a <= end <= |m| && m[a..end] == Encode(x) + rest
    ensures Valid(m, Iter(a, end)) && Decode(m, a) == x && m[Next(m, Iter(a, end)).item..end] == rest
  {
    var b, n := Encode(x) + rest, |Encode(x)|;
    assert b[..n] == Encode(x) && b[n..] == rest;
    SliceOfSlice(m, a, |b|, 0, n);
    SliceOfSlice(m, a, |b|, n, |b|);
    DecodeEncode(m, a, x);
  }

  lemma EndMarkerIsStorable()
    ensures Storable(END_MARKER)
  {
    assert Power(2) == 65536;
  }

  /** A traversal of a written buffer gets every item back, in order, and meets the end marker. */
  lemma {:induction false} WalkReadsBack(m: Bytes, it: Iter, items: seq<Item>)
    requires it.item <= it.end <= |m| && m[it.item..it.end] == EncodeAll(items)
    requires forall k :: 0 <= k < |items| ==> Storable(items[k]) && items[k].kind != TYPE_BUFFER_END
    ensures Reads(m, Walk(m, it), it.end, items) && !Failed(m, Last(m, it))
    decreases |items|
  {
    if items == [] {
      EndMarkerIsStorable();
      assert Encode(END_MARKER) == Encode(END_MARKER) + [];
      DecodeFirst(m, it.item, it.end, END_MARKER, []);
    } else {
      DecodeFirst(m, it.item, it.end, items[0], EncodeAll(items[1..]));
      WalkReadsBack(m, Next(m, it), items[1..]);
      ReadsMore(m, it.item, Walk(m, Next(m, it)), it.end, items);
    }
  }

  lemma ReadsMore(m: Bytes, a: nat, w: seq<nat>, end: nat, items: seq<Item>)
    requires end <= |m| && items != [] && Valid(m, Iter(a, end)) && Decode(m, a) == items[0]
    requires Reads(m, w, end, items[1..])
    ensures Reads(m, [a] + w, end, items)
  {
    var v := [a] + w;
    assert forall k :: 0 < k < |v| ==> v[k] == w[k - 1] && items[k] == items[1..][k - 1];
  }
}
