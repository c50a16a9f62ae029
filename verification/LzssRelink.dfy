/**
 * The three ways the encoder rewires its trees, as functions on the arrays, and the
 * proof that each leaves a forest of disjoint ordered trees.
 */
module LzssRelink {
  import opened Basics
  import opened LzssOrder
  import opened LzssForest

  /** Tree `c`: represented from its root slot, in strict string order, first byte `c`. */
  ghost predicate HasTree(t: Tree, s: Links, text: seq<Byte>, f: nat, c: Byte) {
    && Rep(t, s, s.rc[RootOf(s, c)], RootOf(s, c))
    && Ordered(text, f, InOrder(t))
    && FirstByte(Keys(t), text, c)
  }

  ghost predicate FirstByte(ks: set<int>, text: seq<Byte>, c: Byte) {
    forall k :: k in ks ==> 0 <= k < |text| && text[k] == c
  }

  /** The arrays hold 256 trees, and `pa` marks exactly the nodes that are in one. */
  ghost predicate IsForest(ts: seq<Tree>, s: Links, text: seq<Byte>, f: nat) {
    && |ts| == 256 && f >= 1 && |text| == s.nil + f - 1
    && (forall c: Byte :: HasTree(ts[c], s, text, f, c))
    && forall k :: 0 <= k < s.nil ==> (s.pa[k] != s.nil <==> k in Keys(ts[text[k]]))
  }

  predicate InRange(p: Path, s: Links) {
    !p.Top? ==> 0 <= p.key < s.nil
  }

  /** Store `v` in the link the path ends at. */
  function WriteHole(p: Path, s: Links, c: Byte, v: int): (r: Links)
    requires InRange(p, s)
    ensures r.nil == s.nil && r.pa == s.pa && Hole(p, r, c) == v
  {
    match p
    case Top => s.(rc := s.rc[RootOf(s, c) := v])
    case InLeft(_, k, _) => s.(lc := s.lc[k := v])
    case InRight(_, _, k) => s.(rc := s.rc[k := v])
  }

  /** The arrays changed only at the nodes `ks` and at the link that path `p` ends at. */
  ghost predicate OnlyAt(s: Links, s': Links, c: Byte, p: Path, ks: set<int>) {
    && s'.nil == s.nil
    && SameBesideHole(p, s, s')
    && (forall k :: 0 <= k < s.nil && k !in ks && k != HolePar(p, s, c) ==> SameAt(s, s', k))
    && forall d: Byte :: !(p.Top? && d == c) ==> s.rc[RootOf(s, d)] == s'.rc[RootOf(s, d)]
  }

  /** Subtree `t` hangs at the end of path `p`. */
  ghost predicate Hangs(t: Tree, s: Links, c: Byte, p: Path) {
    Rep(t, s, Hole(p, s, c), HolePar(p, s, c))
  }

  /** Replacing the subtree `t0` below path `p` of tree `c` by `t`, in place ... */
  lemma {:induction false} RelinkTree(s: Links, s': Links, text: seq<Byte>, f: nat, c: Byte, p: Path, t0: Tree, t: Tree)
    requires HasTree(Plug(p, t0), s, text, f, c)
    requires OnlyAt(s, s', c, p, Keys(t0) + Keys(t)) && Hangs(t, s', c, p)
    requires Ordered(text, f, Before(p) + InOrder(t) + After(p)) && FirstByte(Keys(t), text, c)
    ensures HasTree(Plug(p, t), s', text, f, c)
    ensures PathKeys(p) !! Keys(t0) && PathKeys(p) !! Keys(t)
  {
    PlugInOrder(p, t);
    OrderedFresh(text, f, p, t0);
    OrderedFresh(text, f, p, t);
    PlugKeys(p, t0);
    PlugKeys(p, t);
    PlugRep(p, t0, s, c);
    PathFrame(p, s, s', c);
    PlugRep(p, t, s', c);
  }

  /** ... leaves every other tree alone ... */
  lemma {:induction false} RelinkOther(o: Tree, s: Links, s': Links, text: seq<Byte>, f: nat, d: Byte, c: Byte, p: Path, t0: Tree, t: Tree)
    requires d != c && HasTree(o, s, text, f, d)
    requires OnlyAt(s, s', c, p, Keys(t0) + Keys(t))
    requires FirstByte(Keys(Plug(p, t0)), text, c) && FirstByte(Keys(t), text, c)
    ensures HasTree(o, s', text, f, d)
  {
    PlugKeys(p, t0);
    RepKeys(o, s, s.rc[RootOf(s, d)], RootOf(s, d));
    forall k | k in Keys(o) ensures SameAt(s, s', k) {
      assert k !in Keys(Plug(p, t0)) && k !in Keys(t);
    }
    RepFrame(o, s, s', s.rc[RootOf(s, d)], RootOf(s, d));
  }

  /** ... and keeps the marks right, when the nodes dropped are marked absent. */
  lemma {:induction false} RelinkMark(ts: seq<Tree>, s: Links, s': Links, text: seq<Byte>, f: nat, c: Byte, p: Path, t0: Tree, t: Tree, k: int)
    requires IsForest(ts, s, text, f) && ts[c] == Plug(p, t0) && 0 <= k < s.nil
    requires OnlyAt(s, s', c, p, Keys(t0) + Keys(t)) && Hangs(t, s', c, p)
    requires FirstByte(Keys(t), text, c) && PathKeys(p) !! Keys(t0) && PathKeys(p) !! Keys(t)
    requires k in Keys(t0) - Keys(t) ==> s'.pa[k] == s.nil
    ensures s'.pa[k] != s.nil <==> k in Keys(ts[c := Plug(p, t)][text[k]])
  {
    var ts' := ts[c := Plug(p, t)];
    PlugKeys(p, t0);
    PlugKeys(p, t);
    assert HasTree(ts[c], s, text, f, c);
    if k in Keys(t) {
      RepKeys(t, s', Hole(p, s', c), HolePar(p, s', c));
    } else if k in Keys(t0) {
      assert k !in Keys(ts'[c]);
    } else {
      assert k != HolePar(p, s, c) ==> SameAt(s, s', k);
      assert k in Keys(ts[c]) <==> k in Keys(ts'[c]);
    }
  }

  lemma {:induction false} RelinkTrees(ts: seq<Tree>, s: Links, s': Links, text: seq<Byte>, f: nat, c: Byte, p: Path, t0: Tree, t: Tree, ts': seq<Tree>)
    requires IsForest(ts, s, text, f) && ts[c] == Plug(p, t0) && ts' == ts[c := Plug(p, t)]
    requires OnlyAt(s, s', c, p, Keys(t0) + Keys(t)) && Hangs(t, s', c, p)
    requires Ordered(text, f, Before(p) + InOrder(t) + After(p)) && FirstByte(Keys(t), text, c)
    ensures forall d: Byte :: HasTree(ts'[d], s', text, f, d)
    ensures PathKeys(p) !! Keys(t0) && PathKeys(p) !! Keys(t)
  {
    assert HasTree(ts[c], s, text, f, c);
    RelinkTree(s, s', text, f, c, p, t0, t);
    forall d: Byte ensures HasTree(ts'[d], s', text, f, d) {
      if d != c {
        RelinkOther(ts[d], s, s', text, f, d, c, p, t0, t);
      }
    }
  }

  lemma {:induction false} RelinkMarks(ts: seq<Tree>, s: Links, s': Links, text: seq<Byte>, f: nat, c: Byte, p: Path, t0: Tree, t: Tree)
    requires IsForest(ts, s, text, f) && ts[c] == Plug(p, t0)
    requires OnlyAt(s, s', c, p, Keys(t0) + Keys(t)) && Hangs(t, s', c, p)
    requires FirstByte(Keys(t), text, c) && PathKeys(p) !! Keys(t0) && PathKeys(p) !! Keys(t)
    requires forall k :: k in Keys(t0) - Keys(t) && 0 <= k < s.nil ==> s'.pa[k] == s.nil
    ensures forall k :: 0 <= k < s.nil ==> (s'.pa[k] != s.nil <==> k in Keys(ts[c := Plug(p, t)][text[k]]))
  {
    forall k | 0 <= k < s.nil ensures s'.pa[k] != s.nil <==> k in Keys(ts[c := Plug(p, t)][text[k]]) {
      RelinkMark(ts, s, s', text, f, c, p, t0, t, k);
    }
  }

  /** Together: relinking in place keeps the forest. */
  lemma {:induction false} Relink(ts: seq<Tree>, s: Links, s': Links, text: seq<Byte>, f: nat, c: Byte, p: Path, t0: Tree, t: Tree)
    requires IsForest(ts, s, text, f) && ts[c] == Plug(p, t0)
    requires OnlyAt(s, s', c, p, Keys(t0) + Keys(t)) && Hangs(t, s', c, p)
    requires Ordered(text, f, Before(p) + InOrder(t) + After(p)) && FirstByte(Keys(t), text, c)
    requires forall k :: k in Keys(t0) - Keys(t) && 0 <= k < s.nil ==> s'.pa[k] == s.nil
    ensures IsForest(ts[c := Plug(p, t)], s', text, f)
  {
    RelinkTrees(ts, s, s', text, f, c, p, t0, t, ts[c := Plug(p, t)]);
    RelinkMarks(ts, s, s', text, f, c, p, t0, t);
  }

  // ---------- the three rewirings ----------

  /** Make `r` a leaf below `par`. */
  function MakeLeaf(s: Links, r: int, par: int): (s1: Links)
    requires 0 <= r < s.nil
    ensures s1.nil == s.nil
  {
    Arrays(s.nil, s.lc[r := s.nil], s.rc[r := s.nil], s.pa[r := par])
  }

  /** Hang the new node `r` in the empty link at the end of `p`. */
  function Attach(s: Links, p: Path, c: Byte, r: int): Links
    requires 0 <= r < s.nil && InRange(p, s)
  {
    WriteHole(p, MakeLeaf(s, r, HolePar(p, s, c)), c, r)
  }

  /** Give `child` the parent of `k`, and mark `k` absent. */
  function Bypass(s: Links, k: int, child: int): (s1: Links)
    requires 0 <= k < s.nil && 0 <= child <= s.nil
    ensures s1.nil == s.nil
  {
    s.(pa := s.pa[child := s.pa[k]][k := s.nil])
  }

  /** Unlink node `k`, whose only child (or nil) is `child`. */
  function Detach(s: Links, p: Path, c: Byte, k: int, child: int): Links
    requires 0 <= k < s.nil && 0 <= child <= s.nil && InRange(p, s)
  {
    WriteHole(p, Bypass(s, k, child), c, child)
  }

  predicate LinksAt(s: Links, k: int) {
    0 <= k < s.nil && 0 <= s.lc[k] <= s.nil && 0 <= s.rc[k] <= s.nil
  }

  /** Copy the links of `k` to `r`, make `r` the parent of its children, mark `k` absent. */
  function TakeOver(s: Links, k: int, r: int): (s1: Links)
    requires LinksAt(s, k) && 0 <= r < s.nil
    ensures s1.nil == s.nil
  {
    Arrays(s.nil, s.lc[r := s.lc[k]], s.rc[r := s.rc[k]], s.pa[r := s.pa[k]][s.lc[k] := r][s.rc[k] := r][k := s.nil])
  }

  /** Let `r` take the place, the children and the parent of `k`. */
  function Substitute(s: Links, p: Path, c: Byte, k: int, r: int): Links
    requires LinksAt(s, k) && 0 <= r < s.nil && InRange(p, s)
  {
    WriteHole(p, TakeOver(s, k, r), c, r)
  }

  // ---------- facts shared by the three proofs ----------

  ghost predicate Nodes(ks: set<int>, s: Links) {
    forall k :: k in ks ==> 0 <= k < s.nil
  }

  ghost predicate RootFresh(t: Tree) {
    t.Node? ==> t.key !in Keys(t.left) && t.key !in Keys(t.right) && Keys(t.left) !! Keys(t.right)
  }

  ghost predicate Off(p: Path, ks: set<int>) {
    PathKeys(p) !! ks && (!p.Top? ==> p.key in PathKeys(p))
  }

  /** What the forest says about a path into one of its trees and the subtree below. */
  lemma {:induction false} AtPath(ts: seq<Tree>, s: Links, text: seq<Byte>, f: nat, c: Byte, p: Path, t: Tree)
    requires IsForest(ts, s, text, f) && ts[c] == Plug(p, t)
    ensures InRange(p, s) && PathRep(p, s, c) && Hangs(t, s, c, p)
    ensures Ordered(text, f, Before(p) + InOrder(t) + After(p)) && Ordered(text, f, InOrder(t))
    ensures Off(p, Keys(t)) && FirstByte(Keys(t), text, c) && Nodes(Keys(t), s)
  {
    assert HasTree(ts[c], s, text, f, c);
    PlugRep(p, t, s, c);
    PlugKeys(p, t);
    PlugInOrder(p, t);
    OrderedConcat(text, f, Before(p) + InOrder(t), After(p));
    OrderedConcat(text, f, Before(p), InOrder(t));
    OrderedFresh(text, f, p, t);
    RepKeys(t, s, Hole(p, s, c), HolePar(p, s, c));
  }

  lemma {:induction false} OrderedRootFresh(text: seq<Byte>, f: nat, t: Tree)
    requires Ordered(text, f, InOrder(t))
    ensures RootFresh(t)
    ensures t.Node? ==> Ordered(text, f, InOrder(t.left)) && Ordered(text, f, InOrder(t.right))
  {
    if t.Node? {
      OrderedFresh(text, f, InLeft(Top, t.key, t.right), t.left);
      OrderedFresh(text, f, InRight(Top, t.left, t.key), t.right);
      OrderedConcat(text, f, InOrder(t.left) + [t.key], InOrder(t.right));
      OrderedConcat(text, f, InOrder(t.left), [t.key]);
    }
  }

  /** A subtree keeps its representation when its root gets a new parent. */
  lemma {:induction false} Reparent(t: Tree, s: Links, s': Links, link: int, par: int, par': int)
    requires s.nil == s'.nil && Rep(t, s, link, par) && RootFresh(t)
    requires t.Node? ==> s'.lc[t.key] == s.lc[t.key] && s'.rc[t.key] == s.rc[t.key] && s'.pa[t.key] == par'
    requires forall k :: k in Keys(t) && k != link ==> SameAt(s, s', k)
    ensures Rep(t, s', link, par')
  {
    if t.Node? {
      RepFrame(t.left, s, s', s.lc[t.key], t.key);
      RepFrame(t.right, s, s', s.rc[t.key], t.key);
    }
  }

  /** Editing the nodes `ks` and then hanging `t`, built from them, at the end of `p`. */
  lemma {:induction false} Hang(s: Links, s1: Links, c: Byte, p: Path, t: Tree, link: int, ks: set<int>)
    requires s.nil == s1.nil && InRange(p, s) && Off(p, ks)
    requires forall d: Byte :: s.rc[RootOf(s, d)] == s1.rc[RootOf(s, d)]
    requires forall k :: 0 <= k < s.nil && k !in ks ==> SameAt(s, s1, k)
    requires Rep(t, s1, link, HolePar(p, s, c)) && Keys(t) <= ks
    ensures OnlyAt(s, WriteHole(p, s1, c, link), c, p, ks)
    ensures Hangs(t, WriteHole(p, s1, c, link), c, p)
  {
    var s' := WriteHole(p, s1, c, link);
    if !p.Top? {
      assert SameAt(s, s1, p.key);
    }
    assert forall k :: 0 <= k < s.nil && k != HolePar(p, s, c) ==> SameAt(s1, s', k);
    RepFrame(t, s1, s', link, HolePar(p, s, c));
  }

  // ---------- each rewiring keeps the forest ----------

  lemma {:induction false} AttachKeepsForest(ts: seq<Tree>, s: Links, text: seq<Byte>, f: nat, c: Byte, p: Path, r: int)
    requires IsForest(ts, s, text, f) && ts[c] == Plug(p, Leaf)
    requires 0 <= r < s.nil && s.pa[r] == s.nil && text[r] == c
    requires Ordered(text, f, Before(p) + [r] + After(p))
    ensures InRange(p, s)
    ensures IsForest(ts[c := Plug(p, Node(Leaf, r, Leaf))], Attach(s, p, c, r), text, f)
  {
    AtPath(ts, s, text, f, c, p, Leaf);
    PlugKeys(p, Leaf);
    var t := Node(Leaf, r, Leaf);
    assert Keys(Leaf) + Keys(t) == {r} && InOrder(t) == [r];
    Hang(s, MakeLeaf(s, r, HolePar(p, s, c)), c, p, t, r, {r});
    Relink(ts, s, Attach(s, p, c, r), text, f, c, p, Leaf, t);
  }

  lemma {:induction false} BypassRep(s: Links, t0: Tree, child: int, t: Tree, par: int)
    requires t0.Node? && Nodes(Keys(t0), s) && Rep(t0, s, t0.key, par)
    requires (t == t0.left && child == s.lc[t0.key]) || (t == t0.right && child == s.rc[t0.key])
    requires t0.key !in Keys(t) && RootFresh(t)
    ensures 0 <= child <= s.nil && Keys(t) <= Keys(t0)
    ensures Rep(t, Bypass(s, t0.key, child), child, par)
    ensures forall k :: 0 <= k < s.nil && k !in Keys(t0) ==> SameAt(s, Bypass(s, t0.key, child), k)
  {
    assert t.Node? ==> child in Keys(t0);
    Reparent(t, s, Bypass(s, t0.key, child), child, t0.key, par);
  }

  lemma DetachOrder(text: seq<Byte>, f: nat, a: seq<int>, l: seq<int>, k: int, r: seq<int>, b: seq<int>)
    requires Ordered(text, f, a + (l + [k] + r) + b)
    ensures Ordered(text, f, a + (l + r) + b)
  {
    var c, d := a + (l + [k] + r) + b, a + (l + r) + b;
    var h := |a| + |l|;
    forall i, j | 0 <= i < j < |d| ensures Precedes(text, f, d[i], d[j]) {
      assert d[i] == (if i < h then c[i] else c[i + 1]);
      assert d[j] == (if j < h then c[j] else c[j + 1]);
    }
  }

  lemma {:induction false} DetachTreeOrder(text: seq<Byte>, f: nat, p: Path, t0: Tree, t: Tree)
    requires t0.Node? && Ordered(text, f, Before(p) + InOrder(t0) + After(p))
    requires (t == t0.left && t0.right.Leaf?) || (t == t0.right && t0.left.Leaf?)
    ensures Ordered(text, f, Before(p) + InOrder(t) + After(p))
  {
    var l, r := InOrder(t0.left), InOrder(t0.right);
    DetachOrder(text, f, Before(p), l, t0.key, r, After(p));
    assert l + [] == l && [] + r == r;
  }

  lemma {:induction false} DetachHangs(s: Links, text: seq<Byte>, f: nat, c: Byte, p: Path, t0: Tree, t: Tree, child: int)
    requires t0.Node? && InRange(p, s) && Hangs(t0, s, c, p) && Nodes(Keys(t0), s) && Off(p, Keys(t0))
    requires Ordered(text, f, InOrder(t0)) && 0 <= t0.key < s.nil
    requires (t == t0.left && child == s.lc[t0.key]) || (t == t0.right && child == s.rc[t0.key])
    ensures 0 <= child <= s.nil && Keys(t) <= Keys(t0)
    ensures OnlyAt(s, Detach(s, p, c, t0.key, child), c, p, Keys(t0))
    ensures Hangs(t, Detach(s, p, c, t0.key, child), c, p)
  {
    OrderedRootFresh(text, f, t0);
    OrderedRootFresh(text, f, t);
    BypassRep(s, t0, child, t, HolePar(p, s, c));
    Hang(s, Bypass(s, t0.key, child), c, p, t, child, Keys(t0));
  }

  lemma {:induction false} DetachFacts(ts: seq<Tree>, s: Links, text: seq<Byte>, f: nat, c: Byte, p: Path, t0: Tree, t: Tree, child: int)
    requires IsForest(ts, s, text, f) && t0.Node? && ts[c] == Plug(p, t0) && 0 <= t0.key < s.nil
    requires (t == t0.left && t0.right.Leaf? && child == s.lc[t0.key])
          || (t == t0.right && t0.left.Leaf? && child == s.rc[t0.key])
    ensures InRange(p, s) && 0 <= child <= s.nil && Keys(t) <= Keys(t0) && Keys(t0) - Keys(t) == {t0.key}
    ensures OnlyAt(s, Detach(s, p, c, t0.key, child), c, p, Keys(t0))
    ensures Hangs(t, Detach(s, p, c, t0.key, child), c, p)
    ensures Ordered(text, f, Before(p) + InOrder(t) + After(p)) && FirstByte(Keys(t), text, c)
  {
    AtPath(ts, s, text, f, c, p, t0);
    OrderedRootFresh(text, f, t0);
    DetachHangs(s, text, f, c, p, t0, t, child);
    DetachTreeOrder(text, f, p, t0, t);
  }

  lemma {:induction false} DetachKeepsForest(ts: seq<Tree>, s: Links, text: seq<Byte>, f: nat, c: Byte, p: Path, t0: Tree, t: Tree, child: int)
    requires IsForest(ts, s, text, f) && t0.Node? && ts[c] == Plug(p, t0) && 0 <= t0.key < s.nil
    requires (t == t0.left && t0.right.Leaf? && child == s.lc[t0.key])
          || (t == t0.right && t0.left.Leaf? && child == s.rc[t0.key])
    ensures InRange(p, s) && 0 <= child <= s.nil
    ensures IsForest(ts[c := Plug(p, t)], Detach(s, p, c, t0.key, child), text, f)
  {
    DetachFacts(ts, s, text, f, c, p, t0, t, child);
    assert Keys(t0) + Keys(t) == Keys(t0);
    assert Detach(s, p, c, t0.key, child).pa[t0.key] == s.nil;
    Relink(ts, s, Detach(s, p, c, t0.key, child), text, f, c, p, t0, t);
  }

  lemma {:induction false} TakeOverRep(s: Links, l: Tree, k: int, r: Tree, n: int, par: int)
    requires Nodes(Keys(Node(l, k, r)), s) && Rep(Node(l, k, r), s, k, par)
    requires 0 <= n < s.nil && n !in Keys(Node(l, k, r))
    requires RootFresh(Node(l, k, r)) && RootFresh(l) && RootFresh(r)
    ensures LinksAt(s, k)
    ensures Rep(Node(l, n, r), TakeOver(s, k, n), n, par)
    ensures forall x :: 0 <= x < s.nil && x !in Keys(l) + Keys(r) + {k, n} ==> SameAt(s, TakeOver(s, k, n), x)
  {
    assert k in Keys(Node(l, k, r));
    assert l.Node? ==> s.lc[k] in Keys(l);
    assert r.Node? ==> s.rc[k] in Keys(r);
    var s1 := TakeOver(s, k, n);
    assert forall x :: x in Keys(l) && x != s.lc[k] ==> SameAt(s, s1, x);
    Reparent(l, s, s1, s.lc[k], k, n);
    assert forall x :: x in Keys(r) && x != s.rc[k] ==> SameAt(s, s1, x);
    Reparent(r, s, s1, s.rc[k], k, n);
  }

  lemma {:induction false} SubstituteHangs(s: Links, text: seq<Byte>, f: nat, c: Byte, p: Path, l: Tree, k: int, r: Tree, n: int)
    requires InRange(p, s) && Hangs(Node(l, k, r), s, c, p) && Nodes(Keys(Node(l, k, r)), s)
    requires Off(p, Keys(Node(l, k, r)) + {n}) && 0 <= n < s.nil && n !in Keys(Node(l, k, r))
    requires Ordered(text, f, InOrder(Node(l, k, r)))
    ensures LinksAt(s, k)
    ensures OnlyAt(s, Substitute(s, p, c, k, n), c, p, Keys(Node(l, k, r)) + Keys(Node(l, n, r)))
    ensures Hangs(Node(l, n, r), Substitute(s, p, c, k, n), c, p)
  {
    var t0, t := Node(l, k, r), Node(l, n, r);
    OrderedRootFresh(text, f, t0);
    OrderedRootFresh(text, f, l);
    OrderedRootFresh(text, f, r);
    TakeOverRep(s, l, k, r, n, HolePar(p, s, c));
    assert Keys(t0) + Keys(t) == Keys(l) + Keys(r) + {k, n};
    Hang(s, TakeOver(s, k, n), c, p, t, n, Keys(t0) + Keys(t));
  }

  lemma {:induction false} SubstituteKeepsForest(ts: seq<Tree>, s: Links, text: seq<Byte>, f: nat, c: Byte, p: Path, l: Tree, k: int, r: Tree, n: int)
    requires IsForest(ts, s, text, f) && ts[c] == Plug(p, Node(l, k, r))
    requires 0 <= n < s.nil && s.pa[n] == s.nil && text[n] == c
    requires Ordered(text, f, Before(p) + InOrder(Node(l, n, r)) + After(p))
    ensures InRange(p, s) && LinksAt(s, k)
    ensures IsForest(ts[c := Plug(p, Node(l, n, r))], Substitute(s, p, c, k, n), text, f)
  {
    var t0 := Node(l, k, r);
    AtPath(ts, s, text, f, c, p, t0);
    PlugKeys(p, t0);
    assert n !in Keys(ts[c]);
    SubstituteHangs(s, text, f, c, p, l, k, r, n);
    Relink(ts, s, Substitute(s, p, c, k, n), text, f, c, p, t0, Node(l, n, r));
  }
}
