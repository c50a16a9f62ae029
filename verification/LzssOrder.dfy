/**
 * The order on fixed-length strings of the LZSS search trees.
 *
 * A tree node is a position in the text; the string of node `k` is the `f` bytes
 * that start there.  Strings are compared byte by byte, and the length of the common
 * prefix is what the encoder wants to know.
 */
module LzssOrder {
  import opened Basics

  /** The string that node `k` stands for. */
  function Str(text: seq<Byte>, f: nat, k: int): (s: seq<Byte>)
    requires 0 <= k && k + f <= |text|
    ensures |s| == f
  {
    text[k..k + f]
  }

  /** Length of the longest common prefix of `x` and `y`, counted from index `i`. */
  function MatchFrom(x: seq<Byte>, y: seq<Byte>, i: nat): (m: nat)
    requires |x| == |y| && i <= |x|
    ensures i <= m <= |x|
    ensures forall j :: i <= j < m ==> x[j] == y[j]
    ensures m < |x| ==> x[m] != y[m]
    decreases |x| - i
  {
    if i == |x| || x[i] != y[i] then i else MatchFrom(x, y, i + 1)
  }

  function Match(x: seq<Byte>, y: seq<Byte>): (m: nat)
    requires |x| == |y|
    ensures m <= |x| && x[..m] == y[..m] && (m < |x| ==> x[m] != y[m])
  {
    MatchFrom(x, y, 0)
  }

  predicate Less(x: seq<Byte>, y: seq<Byte>)
    requires |x| == |y|
  {
    var m := Match(x, y);
    m < |x| && x[m] < y[m]
  }

  lemma MatchIs(x: seq<Byte>, y: seq<Byte>, m: nat)
    requires |x| == |y| && m <= |x|
    requires forall j :: 0 <= j < m ==> x[j] == y[j]
    requires m < |x| ==> x[m] != y[m]
    ensures Match(x, y) == m
  {
  }

  /** Exactly one of less, equal and greater holds. */
  lemma Trichotomy(x: seq<Byte>, y: seq<Byte>)
    requires |x| == |y|
    ensures Match(x, y) == Match(y, x)
    ensures Match(x, y) == |x| <==> x == y
    ensures x == y ==> !Less(x, y) && !Less(y, x)
    ensures x != y ==> Less(x, y) != Less(y, x)
  {
    var m := Match(x, y);
    MatchIs(y, x, m);
    if m == |x| {
      assert x[..m] == x && y[..m] == y;
    }
  }

  /** Transitivity, and the prefix bound behind the search: of two strings on the same
      side of `z`, the one nearer to `z` shares at least as long a prefix with it. */
  lemma Between(x: seq<Byte>, y: seq<Byte>, z: seq<Byte>)
    requires |x| == |y| == |z|
    requires Less(x, y) && Less(y, z)
    ensures Less(x, z)
    ensures Match(x, z) <= Match(y, z) && Match(x, z) <= Match(x, y)
  {
    var a, b := Match(x, y), Match(y, z);
    var m := if a < b then a else b;
    forall j | 0 <= j < m ensures x[j] == z[j] {
      assert x[..a][j] == y[..a][j] && y[..b][j] == z[..b][j];
    }
    if a < b {
      assert y[..b][a] == z[..b][a];
    } else if b < a {
      assert x[..a][b] == y[..a][b];
    }
    MatchIs(x, z, m);
  }
}
