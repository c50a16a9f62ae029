/**
 * What the LZSS decoder puts out, told by the ring of 4096 bytes that the format prescribes and
 * without the history the decoder is proved against: each byte of a copy is the one last
 * written to its ring position, a blank where nothing has been written before position 4078,
 * and what the memory held before from there on.
 */
module LzssLaws {
  import opened Basics
  import opened LzssDecode

  lemma {:induction false} ExpandJoin(h: seq<Byte>, ts: seq<Token>, us: seq<Token>)
    requires |h| >= 4096
    ensures Expand(h, ts + us) == Expand(Expand(h, ts), us)
    decreases ts
  {
    if ts == [] {
      assert ts + us == us;
    } else {
      assert (ts + us)[1..] == ts[1..] + us;
      ExpandJoin(Push(h, ts[0]), ts[1..], us);
    }
  }

  lemma ExpandLast(h: seq<Byte>, ts: seq<Token>, t: Token)
    requires |h| >= 4096
    ensures Expand(h, ts + [t]) == Push(Expand(h, ts), t)
  {
    ExpandJoin(h, ts, [t]);
    assert [t][1..] == [];
  }

  /** No tokens, no output; each token appends, a literal its byte and a copy its length. */
  lemma OutputAppends(stack: seq<Byte>, ts: seq<Token>, t: Token)
    requires |stack| == 4113
    ensures Output(stack, []) == []
    ensures var out, out' := Output(stack, ts), Output(stack, ts + [t]);
      && |out'| == |out| + (if t.Lit? then 1 else t.len) && out'[..|out|] == out
      && (t.Lit? ==> out'[|out|] == t.b)
  {
    var h := Expand(Preload(stack), ts);
    ExpandLast(Preload(stack), ts, t);
    PushBegins(h, t);
    var h' := Push(h, t);
    assert h'[4096..][..|h| - 4096] == h'[..|h|][4096..];
  }

  /** Index `j` of the output is written to ring position (4078 + j) % 4096. */
  predicate Writes(j: int, q: int) {
    (4078 + j) % 4096 == q
  }

  lemma CopyDistance(n: nat, pos: int, k: nat, d: int)
    requires (4096 + n - k - d - pos) % 4096 == 18
    ensures Writes(n - d, (pos + k) % 4096)
  {
    var a, b := (4096 + n - k - d - pos) / 4096, (pos + k) / 4096;
    assert 4078 + (n - d) == 4096 * a + pos + k;
    assert 4078 + (n - d) == 4096 * (a + b) + (pos + k) % 4096;
  }

  lemma SameSlot(i: int, j: int, q: int)
    requires Writes(i, q) && Writes(j, q) && -4096 < i - j < 4096
    ensures i == j
  {
  }

  lemma DistanceSlot(m: nat, pos: int, k: nat)
    requires m >= 4096
    ensures var d := Distance(m, pos); 1 <= d <= 4096 && Writes(m - 4096 + k - d, (pos + k) % 4096)
  {
    var d := Distance(m, pos);
    assert (m - d - pos) % 4096 == 18;
    CopyDistance(m - 4096 + k, pos, k, d);
  }

  /** The history's byte at the copy's distance: of the output, or of what the ring held before it. */
  lemma HistoryByte(pre: seq<Byte>, h: seq<Byte>, i: nat)
    requires |pre| == 4096 && Begins(h, pre) && i < |h|
    ensures h[i] == if i >= 4096 then h[4096..][i - 4096] else pre[i]
  {
    if i < 4096 {
      assert h[i] == h[..4096][i];
    }
  }

  /** Where a byte of a copy comes from. */
  lemma CopySource(stack: seq<Byte>, ts: seq<Token>, pos: int, len: nat, k: nat) returns (j: int)
    requires |stack| == 4113 && k < len
    ensures var out := Output(stack, ts + [Copy(pos, len)]); var n := |Output(stack, ts)| + k;
      && n < |out| && n - 4096 <= j < n && Writes(j, (pos + k) % 4096)
      && out[n] == if j >= 0 then out[j] else Preload(stack)[4096 + j]
  {
    var pre := Preload(stack);
    var h := Expand(pre, ts);
    var d := Distance(|h|, pos);
    var h' := Push(h, Copy(pos, len));
    ExpandLast(pre, ts, Copy(pos, len));
    CopyBackRepeats(h, d, len, |h| + k);
    ExpandBegins(pre, ts + [Copy(pos, len)]);
    HistoryByte(pre, h', |h| + k);
    HistoryByte(pre, h', |h| + k - d);
    DistanceSlot(|h|, pos, k);
    j := |h| - 4096 + k - d;
  }

  /** A copy gives the byte last written to its ring position. */
  lemma CopyReadsWritten(stack: seq<Byte>, ts: seq<Token>, pos: int, len: nat, k: nat, j: nat)
    requires |stack| == 4113 && k < len
    requires var n := |Output(stack, ts)| + k; n - 4096 <= j < n && (4078 + j) % 4096 == (pos + k) % 4096
    ensures var out := Output(stack, ts + [Copy(pos, len)]); var n := |Output(stack, ts)| + k;
      n < |out| && out[n] == out[j]
  {
    var i := CopySource(stack, ts, pos, len, k);
    SameSlot(i, j, (pos + k) % 4096);
  }

  /** Where nothing has been written yet it gives a blank, or what the memory held. */
  lemma CopyReadsUnwritten(stack: seq<Byte>, ts: seq<Token>, pos: int, len: nat, k: nat, q: nat)
    requires |stack| == 4113 && k < len && q == (pos + k) % 4096
    requires forall j :: 0 <= j < |Output(stack, ts)| + k ==> !Writes(j, q)
    ensures var out := Output(stack, ts + [Copy(pos, len)]); var n := |Output(stack, ts)| + k;
      n < |out| && out[n] == if q < 4078 then 0x20 else stack[q]
  {
    var i := CopySource(stack, ts, pos, len, k);
    assert i < 0;
    assert q == if i >= -4078 then 4078 + i else 8174 + i;
  }

  /** A literal written at a ring position is what a later copy from there gives, until the ring
      comes round. */
  lemma CopyReadsLiteral(stack: seq<Byte>, ts: seq<Token>, b: Byte, us: seq<Token>, pos: int, len: nat)
    requires |stack| == 4113 && len > 0
    requires var j, n := |Output(stack, ts)|, |Output(stack, ts + [Lit(b)] + us)|;
      n - 4096 <= j < n && pos % 4096 == (4078 + j) % 4096
    ensures var out := Output(stack, ts + [Lit(b)] + us + [Copy(pos, len)]); var n := |Output(stack, ts + [Lit(b)] + us)|;
      n < |out| && out[n] == b
  {
    var j, all := |Output(stack, ts)|, ts + [Lit(b)] + us;
    CopyReadsWritten(stack, all, pos, len, 0, j);
    OutputAppends(stack, ts, Lit(b));
    OutputBegins(stack, ts + [Lit(b)], us);
    OutputAppends(stack, all, Copy(pos, len));
    var out, mid := Output(stack, all + [Copy(pos, len)]), Output(stack, all);
    assert out[j] == out[..|mid|][j] == mid[j] == mid[..j + 1][j];
  }

  lemma OutputBegins(stack: seq<Byte>, ts: seq<Token>, us: seq<Token>)
    requires |stack| == 4113
    ensures Begins(Output(stack, ts + us), Output(stack, ts))
  {
    var h := Expand(Preload(stack), ts);
    ExpandJoin(Preload(stack), ts, us);
    ExpandBegins(h, us);
    DropBegins(Expand(h, us), h, 4096);
  }

  lemma DropBegins(whole: seq<Byte>, part: seq<Byte>, n: nat)
    requires Begins(whole, part) && n <= |part|
    ensures Begins(whole[n..], part[n..])
  {
    assert whole[n..][..|part| - n] == whole[..|part|][n..];
  }

  lemma NotWritten(pos: nat, len: nat, k: nat, j: nat)
    requires j < k < len <= 4096 && (pos + len <= 4078 || 4078 <= pos <= pos + len <= 4096)
    ensures !Writes(j, pos + k)
  {
    if 4078 + j >= 4096 {
      assert (4078 + j) % 4096 == j - 18;
    }
  }

  lemma FirstCopyByte(stack: seq<Byte>, pos: nat, len: nat, k: nat)
    requires |stack| == 4113 && k < len && (pos + len <= 4078 || 4078 <= pos <= pos + len <= 4096)
    ensures var out := Output(stack, [Copy(pos, len)]);
      |out| == len && out[k] == if pos + k < 4078 then 0x20 else stack[pos + k]
  {
    var t := Copy(pos, len);
    OutputAppends(stack, [], t);
    assert [] + [t] == [t];
    var q := pos + k;
    forall j | 0 <= j < k
      ensures !Writes(j, q)
    {
      NotWritten(pos, len, k, j);
    }
    assert q == (pos + k) % 4096;
    CopyReadsUnwritten(stack, [], pos, len, k, q);
  }

  /** A first copy from before position 4078 gives blanks. */
  lemma FirstCopyIsBlank(stack: seq<Byte>, pos: nat, len: nat)
    requires |stack| == 4113 && pos + len <= 4078
    ensures Output(stack, [Copy(pos, len)]) == seq(len, _ => 0x20)
  {
    var out := Output(stack, [Copy(pos, len)]);
    OutputAppends(stack, [], Copy(pos, len));
    assert [] + [Copy(pos, len)] == [Copy(pos, len)];
    forall k | 0 <= k < len
      ensures out[k] == 0x20
    {
      FirstCopyByte(stack, pos, len, k);
    }
  }

  /** A first copy from behind it gives what the memory held. */
  lemma FirstCopyIsStack(stack: seq<Byte>, pos: nat, len: nat)
    requires |stack| == 4113 && 4078 <= pos && pos + len <= 4096
    ensures Output(stack, [Copy(pos, len)]) == stack[pos..pos + len]
  {
    var out := Output(stack, [Copy(pos, len)]);
    OutputAppends(stack, [], Copy(pos, len));
    assert [] + [Copy(pos, len)] == [Copy(pos, len)];
    forall k | 0 <= k < len
      ensures out[k] == stack[pos + k]
    {
      FirstCopyByte(stack, pos, len, k);
    }
  }

  // ---------- the bytes of a token ----------

  /** An item is announced by the lowest flag bit left: one for a literal byte, ... */
  lemma LiteralBytes(bits: nat, n: nat, b: Byte, rest: seq<Byte>)
    requires n > 0 && bits % 2 == 1
    ensures Group([b] + rest, bits, n) == [Lit(b)] + Group(rest, bits / 2, n - 1)
  {
    assert ([b] + rest)[1..] == rest;
  }

  /** ... zero for two bytes that hold a 12-bit position and a length from 3 to 18: the low eight
      bits of the position, then its high four bits above the length less three. */
  lemma CopyBytes(bits: nat, n: nat, pos: nat, len: nat, rest: seq<Byte>)
    requires n > 0 && bits % 2 == 0 && pos < 4096 && 3 <= len <= 18
    ensures Group([pos % 256, 16 * (pos / 256) + (len - 3)] + rest, bits, n) == [Copy(pos, len)] + Group(rest, bits / 2, n - 1)
  {
    var src := [pos % 256, 16 * (pos / 256) + (len - 3)] + rest;
    assert src[2..] == rest;
  }

  /** Input that ends in the middle of an item ends the output before it. */
  lemma CutItem(bits: nat, n: nat, i: Byte)
    requires n > 0
    ensures Group([], bits, n) == []
    ensures bits % 2 == 0 ==> Group([i], bits, n) == []
  {
  }

  /** A flag byte announces eight items. */
  lemma FlagByteBegins(flag: Byte, rest: seq<Byte>)
    ensures Parse([flag] + rest) == Group(rest, flag, 8) && Group(rest, flag, 0) == Parse(rest) && Parse([]) == []
  {
    assert ([flag] + rest)[1..] == rest;
  }

  lemma LoneCopy(src: seq<Byte>, pos: nat, len: nat)
    requires pos < 4096 && 3 <= len <= 18 && src == [0, pos % 256, 16 * (pos / 256) + (len - 3)]
    ensures Parse(src) == [Copy(pos, len)]
  {
    var bytes: seq<Byte> := [pos % 256, 16 * (pos / 256) + (len - 3)];
    assert src == [0] + bytes && bytes + [] == bytes;
    FlagByteBegins(0, bytes);
    CopyBytes(0, 8, pos, len, []);
    CutItem(0, 7, 0);
  }

  /** Input that starts by copying from before position 4078 comes out as blanks. */
  method DecompressBlanks(dst: array<Byte>, stack: seq<Byte>, pos: nat, len: nat)
    requires 3 <= len <= 18 && pos + len <= 4078 && dst.Length == len && |stack| == 4113
    modifies dst
    ensures forall k :: 0 <= k < len ==> dst[k] == 0x20
  {
    var src: seq<Byte> := [0, pos % 256, 16 * (pos / 256) + (len - 3)];
    LoneCopy(src, pos, len);
    FirstCopyIsBlank(stack, pos, len);
    var n := Decompress(dst, len, src, stack);
    assert dst[..n] == seq(len, _ => 0x20);
  }
}
