/**
 * What a descent through one tree learns, and what each operation does to the
 * sequence of keys.
 */
module LzssSearch {
  import opened Basics
  import opened LzssOrder
  import opened LzssForest
  import opened LzssRelink

  /** Length of the common prefix of the strings of two nodes. */
  function Common(text: seq<Byte>, f: nat, a: int, b: int): nat {
    if InText(text, f, a) && InText(text, f, b) then Match(Str(text, f, a), Str(text, f, b)) else 0
  }

  /** The path splits its keys around `r`, and none of them matches `r` beyond `m` bytes. */
  ghost predicate Around(text: seq<Byte>, f: nat, r: int, p: Path, m: nat) {
    && (forall k :: k in Before(p) ==> Precedes(text, f, k, r) && Common(text, f, k, r) <= m)
    && (forall k :: k in After(p) ==> Precedes(text, f, r, k) && Common(text, f, k, r) <= m)
  }

  /** Of two nodes on the same side of `r`, the nearer has the longer match. */
  lemma Nearer(text: seq<Byte>, f: nat, x: int, y: int, r: int)
    ensures Precedes(text, f, x, y) && Precedes(text, f, y, r)
            ==> Precedes(text, f, x, r) && Common(text, f, x, r) <= Common(text, f, y, r)
    ensures Precedes(text, f, r, y) && Precedes(text, f, y, x)
            ==> Precedes(text, f, r, x) && Common(text, f, x, r) <= Common(text, f, y, r)
  {
    if Precedes(text, f, x, y) && Precedes(text, f, y, r) {
      Between(Str(text, f, x), Str(text, f, y), Str(text, f, r));
    } else if Precedes(text, f, r, y) && Precedes(text, f, y, x) {
      Between(Str(text, f, r), Str(text, f, y), Str(text, f, x));
      Trichotomy(Str(text, f, x), Str(text, f, r));
      Trichotomy(Str(text, f, y), Str(text, f, r));
    }
  }

  /** Going right at a node smaller than `r` skips only nodes that match no better. */
  lemma {:induction false} GoRight(text: seq<Byte>, f: nat, r: int, p: Path, t: Tree, m: nat)
    requires t.Node? && Ordered(text, f, InOrder(t)) && Around(text, f, r, p, m)
    requires Precedes(text, f, t.key, r) && Common(text, f, t.key, r) <= m
    ensures Around(text, f, r, InRight(p, t.left, t.key), m)
  {
    OrderedConcat(text, f, InOrder(t.left) + [t.key], InOrder(t.right));
    OrderedConcat(text, f, InOrder(t.left), [t.key]);
    forall k | k in InOrder(t.left) ensures Precedes(text, f, k, r) && Common(text, f, k, r) <= m {
      assert t.key in [t.key];
      Nearer(text, f, k, t.key, r);
    }
  }

  lemma {:induction false} GoLeft(text: seq<Byte>, f: nat, r: int, p: Path, t: Tree, m: nat)
    requires t.Node? && Ordered(text, f, InOrder(t)) && Around(text, f, r, p, m)
    requires Precedes(text, f, r, t.key) && Common(text, f, t.key, r) <= m
    ensures Around(text, f, r, InLeft(p, t.key, t.right), m)
  {
    OrderedConcat(text, f, InOrder(t.left) + [t.key], InOrder(t.right));
    forall k | k in InOrder(t.right) ensures Precedes(text, f, r, k) && Common(text, f, k, r) <= m {
      assert t.key in InOrder(t.left) + [t.key];
      Nearer(text, f, k, t.key, r);
    }
  }

  /** One step of a descent, to the side that the comparison chose. */
  lemma StepDown(text: seq<Byte>, f: nat, r: int, p: Path, t: Tree, m: nat, right: bool) returns (p': Path, t': Tree)
    requires t.Node? && Ordered(text, f, InOrder(t)) && Around(text, f, r, p, m) && Common(text, f, t.key, r) <= m
    requires if right then Precedes(text, f, t.key, r) else Precedes(text, f, r, t.key)
    ensures Plug(p', t') == Plug(p, t) && Around(text, f, r, p', m)
    ensures !p'.Top? && p'.key == t.key && (p'.InLeft? <==> !right) && t' < t
  {
    if right {
      GoRight(text, f, r, p, t, m);
      p', t' := InRight(p, t.left, t.key), t.right;
    } else {
      GoLeft(text, f, r, p, t, m);
      p', t' := InLeft(p, t.key, t.right), t.left;
    }
  }

  /** A descent that ends at an empty link has bounded the match with every key. */
  lemma {:induction false} Bottom(text: seq<Byte>, f: nat, r: int, p: Path, m: nat)
    requires Around(text, f, r, p, m)
    ensures forall k :: k in Keys(Plug(p, Leaf)) ==> Common(text, f, k, r) <= m
  {
    PlugKeys(p, Leaf);
    PathKeysInOrder(p);
  }

  lemma InsertOrder(text: seq<Byte>, f: nat, a: seq<int>, r: int, b: seq<int>)
    requires Ordered(text, f, a + b) && InText(text, f, r)
    requires forall k :: k in a ==> Precedes(text, f, k, r)
    requires forall k :: k in b ==> Precedes(text, f, r, k)
    ensures Ordered(text, f, a + [r] + b)
  {
    OrderedConcat(text, f, a, b);
    OrderedConcat(text, f, a, [r]);
    OrderedConcat(text, f, a + [r], b);
  }

  /** A node with the same string can stand in for another. */
  lemma SameStringOrder(text: seq<Byte>, f: nat, a: seq<int>, k: int, b: seq<int>, r: int)
    requires Ordered(text, f, a + [k] + b)
    requires InText(text, f, r) && InText(text, f, k) && Str(text, f, r) == Str(text, f, k)
    ensures Ordered(text, f, a + [r] + b)
  {
    OrderedConcat(text, f, a + [k], b);
    OrderedConcat(text, f, a, [k]);
    assert k in [k] && k in a + [k];
    OrderedConcat(text, f, a, b);
    InsertOrder(text, f, a, r, b);
  }

  // ---------- sequences of keys ----------

  lemma {:induction false} PlugSmall(p: Path, k: int)
    ensures InOrder(Plug(p, Leaf)) == Before(p) + After(p)
    ensures InOrder(Plug(p, Node(Leaf, k, Leaf))) == Before(p) + [k] + After(p)
  {
    PlugInOrder(p, Leaf);
    PlugInOrder(p, Node(Leaf, k, Leaf));
    assert InOrder(Node(Leaf, k, Leaf)) == [k];
  }

  lemma {:induction false} PlugNodeInOrder(p: Path, l: Tree, k: int, r: Tree)
    ensures InOrder(Plug(p, Node(l, k, r))) == (Before(p) + InOrder(l)) + [k] + (InOrder(r) + After(p))
    ensures Before(p) + InOrder(Node(l, k, r)) + After(p) == (Before(p) + InOrder(l)) + [k] + (InOrder(r) + After(p))
  {
    PlugInOrder(p, Node(l, k, r));
  }

  function Without(ks: seq<int>, k: int): seq<int> {
    if ks == [] then [] else (if ks[0] == k then [] else [ks[0]]) + Without(ks[1..], k)
  }

  lemma {:induction false} WithoutAbsent(ks: seq<int>, k: int)
    requires k !in ks
    ensures Without(ks, k) == ks
  {
    if ks == [] {
    } else {
      WithoutAbsent(ks[1..], k);
    }
  }

  lemma {:induction false} WithoutMembers(ks: seq<int>, k: int)
    ensures forall x :: x in Without(ks, k) <==> x in ks && x != k
  {
    if ks == [] {
    } else {
      WithoutMembers(ks[1..], k);
      assert ks == [ks[0]] + ks[1..];
    }
  }

  lemma {:induction false} WithoutSplit(a: seq<int>, k: int, b: seq<int>)
    requires k !in a && k !in b
    ensures Without(a + [k] + b, k) == a + b
  {
    if a == [] {
      assert a + [k] + b == [k] + b;
      WithoutAbsent(b, k);
    } else {
      assert a + [k] + b == [a[0]] + (a[1..] + [k] + b);
      WithoutSplit(a[1..], k, b);
    }
  }

  /** In an ordered sequence the removal of `k` leaves exactly the two sides. */
  lemma {:induction false} WithoutOrdered(text: seq<Byte>, f: nat, a: seq<int>, k: int, b: seq<int>)
    requires Ordered(text, f, a + [k] + b)
    ensures k !in a && k !in b && Without(a + [k] + b, k) == a + b
  {
    OrderedDisjoint(text, f, a + [k], b);
    OrderedConcat(text, f, a + [k], b);
    OrderedDisjoint(text, f, a, [k]);
    assert k in a + [k];
    assert k in [k];
    WithoutSplit(a, k, b);
  }

  lemma SplitUnique(a: seq<int>, b: seq<int>, a': seq<int>, b': seq<int>, k: int)
    requires a + [k] + b == a' + [k] + b'
    requires k !in a && k !in b
    ensures a == a' && b == b'
  {
    var c := a + [k] + b;
    assert c[|a|] == k && c[|a'|] == k;
    assert forall i :: |a| < i < |c| ==> c[i] in b;
    assert a == c[..|a|] && a' == c[..|a'|];
    assert b == c[|a| + 1..] && b' == c[|a'| + 1..];
  }

  /** Dropping `k` and putting its neighbour `q` where it was drops `k` and keeps the order. */
  lemma {:induction false} MoveKey(text: seq<Byte>, f: nat, x: seq<int>, q: int, k: int, y: seq<int>, x': seq<int>, y': seq<int>)
    requires Ordered(text, f, x + [q] + [k] + y)
    requires x + [k] + y == x' + [k] + y'
    ensures Ordered(text, f, x' + [q] + y') && x' + [q] + y' == Without(x + [q] + [k] + y, k)
  {
    WithoutOrdered(text, f, x + [q], k, y);
    SplitUnique(x, y, x', y', k);
    OrderedConcat(text, f, x + [q] + [k], y);
    OrderedConcat(text, f, x + [q], [k]);
    OrderedConcat(text, f, x + [q], y);
  }

  // ---------- the forest does not look at absent nodes ----------

  lemma AbsentFrame(ts: seq<Tree>, s: Links, s': Links, text: seq<Byte>, f: nat)
    requires IsForest(ts, s, text, f) && s'.nil == s.nil
    requires forall k :: 0 <= k < s.nil ==> s'.pa[k] == s.pa[k]
    requires forall k :: 0 <= k < s.nil && s.pa[k] != s.nil ==> s'.lc[k] == s.lc[k] && s'.rc[k] == s.rc[k]
    requires forall c: Byte :: s'.rc[RootOf(s, c)] == s.rc[RootOf(s, c)]
    ensures IsForest(ts, s', text, f)
  {
    forall c: Byte ensures HasTree(ts[c], s', text, f, c) {
      assert HasTree(ts[c], s, text, f, c);
      RepKeys(ts[c], s, s.rc[RootOf(s, c)], RootOf(s, c));
      RepFrame(ts[c], s, s', s.rc[RootOf(s, c)], RootOf(s, c));
    }
  }

  /** Which link of its parent a node hangs from, as the code tests it. */
  lemma {:induction false} HangsRight(ts: seq<Tree>, s: Links, text: seq<Byte>, f: nat, c: Byte, p: Path, t: Tree)
    requires IsForest(ts, s, text, f) && ts[c] == Plug(p, t) && t.Node?
    ensures 0 <= t.key < s.nil && s.pa[t.key] == HolePar(p, s, c) && 0 <= HolePar(p, s, c) < |s.rc|
    ensures s.rc[HolePar(p, s, c)] == t.key <==> !p.InLeft?
    ensures p.InLeft? ==> HolePar(p, s, c) < s.nil && s.lc[HolePar(p, s, c)] == t.key
  {
    AtPath(ts, s, text, f, c, p, t);
    assert t.key in Keys(t);
    if p.InLeft? && p.right.Node? {
      assert p.right.key in PathKeys(p);
    }
  }

  /** `p` hangs at the end of `path`, and `r` is another node, not the parent of `p`. */
  ghost predicate Replaceable(s: Links, path: Path, c: Byte, p: int, r: int) {
    && 0 <= r < s.nil && r != p && InRange(path, s)
    && LinksAt(s, p) && s.lc[p] != p && s.rc[p] != p && s.pa[p] != r
    && s.pa[p] == HolePar(path, s, c) && (s.rc[HolePar(path, s, c)] == p <==> !path.InLeft?)
  }

  lemma {:induction false} RepLink(t: Tree, s: Links, link: int, par: int)
    requires Rep(t, s, link, par)
    ensures link == s.nil || (link in Keys(t) && 0 <= link < s.nil)
  {
  }

  lemma {:induction false} IsReplaceable(ts: seq<Tree>, s: Links, text: seq<Byte>, f: nat, c: Byte, p: Path, t: Tree, r: int)
    requires IsForest(ts, s, text, f) && ts[c] == Plug(p, t) && t.Node?
    requires 0 <= r < s.nil && s.pa[r] == s.nil && text[r] == c
    ensures Replaceable(s, p, c, t.key, r)
  {
    AtPath(ts, s, text, f, c, p, t);
    HangsRight(ts, s, text, f, c, p, t);
    OrderedRootFresh(text, f, t);
    RepLink(t.left, s, s.lc[t.key], t.key);
    RepLink(t.right, s, s.rc[t.key], t.key);
    PlugKeys(p, t);
    assert t.key in Keys(t) && r !in Keys(ts[c]);
  }
}
