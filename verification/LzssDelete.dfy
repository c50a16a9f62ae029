/**
 * Deleting a node that has two children, in the array updates the encoder performs.
 */
module LzssDelete {
  import opened Basics
  import opened LzssOrder
  import opened LzssForest
  import opened LzssRelink
  import opened LzssSearch

  /** The order half of `MoveUp`: `q` ends where `k` was. */
  lemma {:induction false} MoveUpOrder(text: seq<Byte>, f: nat, p: Path, t: Tree, k: int, p': Path, l: Tree, r: Tree)
    requires t.Node? && t.right.Leaf? && Ordered(text, f, InOrder(Plug(p, t)))
    requires After(p) != [] && After(p)[0] == k
    requires Plug(p, t.left) == Plug(p', Node(l, k, r))
    ensures Ordered(text, f, Before(p') + InOrder(Node(l, t.key, r)) + After(p'))
    ensures InOrder(Plug(p', Node(l, t.key, r))) == Without(InOrder(Plug(p, t)), k)
  {
    var q := t.key;
    var x, y := Before(p) + InOrder(t.left), After(p)[1..];
    var x', y' := Before(p') + InOrder(l), InOrder(r) + After(p');
    PlugNodeInOrder(p, t.left, q, t.right);
    PlugInOrder(p, t.left);
    PlugNodeInOrder(p', l, k, r);
    PlugNodeInOrder(p', l, q, r);
    Rejoin(x, q, After(p));
    MoveKey(text, f, x, q, k, y, x', y');
  }

  lemma Rejoin(x: seq<int>, q: int, a: seq<int>)
    requires a != []
    ensures x + [q] + ([] + a) == x + [q] + [a[0]] + a[1..]
    ensures x + a == x + [a[0]] + a[1..]
  {
  }

  /** `q` is the rightmost node of the subtree left of `k`: the subtree `t` at the end of `p`. */
  ghost predicate Predecessor(ts: seq<Tree>, s: Links, c: Byte, p: Path, t: Tree, k: int) {
    && |ts| == 256 && ts[c] == Plug(p, t) && t.Node? && t.right.Leaf? && LinksAt(s, t.key)
    && After(p) != [] && After(p)[0] == k
  }

  /** Deleting `k` by moving its in-order predecessor `q` into its place: unlink `q`, then
      let `q` take over from `k`.  The keys lose `k` and nothing else. */
  lemma MoveUp(ts: seq<Tree>, s: Links, text: seq<Byte>, f: nat, c: Byte, p: Path, t: Tree, k: int)
    returns (p': Path, t': Tree)
    requires IsForest(ts, s, text, f) && Predecessor(ts, s, c, p, t, k)
    ensures InRange(p, s)
    ensures var s1 := Detach(s, p, c, t.key, s.lc[t.key]);
      && s1.nil == s.nil && s1.pa[t.key] == s.nil && Replaceable(s1, p', c, k, t.key)
      && IsForest(ts[c := t'], Substitute(s1, p', c, k, t.key), text, f)
    ensures InOrder(t') == Without(InOrder(ts[c]), k)
  {
    DetachKeepsForest(ts, s, text, f, c, p, t, t.left, s.lc[t.key]);
    assert HasTree(ts[c], s, text, f, c);
    PlugKeys(p, t);
    assert t.key in Keys(t);
    p', t' := MoveUpFrom(ts[c := Plug(p, t.left)], Detach(s, p, c, t.key, s.lc[t.key]), text, f, c, p, t, k);
    assert ts[c := Plug(p, t.left)][c := t'] == ts[c := t'];
  }

  lemma MoveUpFrom(ts: seq<Tree>, s: Links, text: seq<Byte>, f: nat, c: Byte, p: Path, t: Tree, k: int)
    returns (p': Path, t': Tree)
    requires IsForest(ts, s, text, f) && t.Node? && t.right.Leaf? && ts[c] == Plug(p, t.left)
    requires Ordered(text, f, InOrder(Plug(p, t))) && After(p) != [] && After(p)[0] == k
    requires 0 <= t.key < s.nil && s.pa[t.key] == s.nil && text[t.key] == c
    ensures Replaceable(s, p', c, k, t.key)
    ensures IsForest(ts[c := t'], Substitute(s, p', c, k, t.key), text, f)
    ensures InOrder(t') == Without(InOrder(Plug(p, t)), k)
  {
    PathKeysInOrder(p);
    PlugKeys(p, t.left);
    var l, r;
    p', l, r := FindPath(Top, ts[c], k);
    MoveUpOrder(text, f, p, t, k, p', l, r);
    SubstituteKeepsForest(ts, s, text, f, c, p', l, k, r, t.key);
    IsReplaceable(ts, s, text, f, c, p', Node(l, k, r), t.key);
    t' := Plug(p', Node(l, t.key, r));
  }

  // ---------- the updates as the code performs them ----------

  /** `q` is the left child of `k`: it only takes over the right child of `k`. */
  function RaiseChild(s: Links, k: int, q: int): (s': Links)
    requires LinksAt(s, k) && 0 <= q < s.nil
    ensures s'.nil == s.nil
  {
    s.(rc := s.rc[q := s.rc[k]], pa := s.pa[s.rc[k] := q])
  }

  /** `q` is deeper: unhook it from its parent, then take over both children of `k`. */
  function RaiseDeep(s: Links, k: int, q: int): (s': Links)
    requires LinksAt(s, k) && LinksAt(s, q) && 0 <= s.pa[q] < s.nil
    ensures s'.nil == s.nil
  {
    Arrays(s.nil,
      s.lc[q := s.lc[k]],
      s.rc[s.pa[q] := s.lc[q]][q := s.rc[k]],
      s.pa[s.lc[q] := s.pa[q]][s.lc[k] := q][s.rc[k] := q])
  }

  /** Paths that end in the same link are written alike. */
  lemma SameHole(p: Path, p': Path, s: Links, c: Byte, v: int)
    requires InRange(p, s) && InRange(p', s)
    requires HolePar(p, s, c) == HolePar(p', s, c) && (p.InLeft? <==> p'.InLeft?)
    ensures WriteHole(p, s, c, v) == WriteHole(p', s, c, v)
  {
  }

  /** What the code relies on when `q` lies below the left child of `k`. */
  ghost predicate Deep(s: Links, path: Path, c: Byte, k: int, q: int) {
    && LinksAt(s, k) && LinksAt(s, q) && InRange(path, s) && 0 <= s.pa[q] < s.nil && s.rc[s.pa[q]] == q
    && k != q && s.pa[q] != k && s.pa[q] != q && s.lc[k] != q && s.rc[k] != q && s.lc[q] != q && s.lc[q] != k
    && s.lc[k] != k && s.rc[k] != k
    && s.pa[k] == HolePar(path, s, c) && s.pa[k] != q && s.pa[k] != s.pa[q]
    && (s.rc[s.pa[k]] == k <==> !path.InLeft?)
  }

  lemma DeepIsMoveUp(s: Links, path: Path, c: Byte, p: Path, t: Tree, k: int, p': Path)
    requires t.Node? && p.InRight? && InRange(p, s) && Deep(s, path, c, k, t.key) && p.key == s.pa[t.key]
    requires var s1 := Detach(s, p, c, t.key, s.lc[t.key]); s1.nil == s.nil && Replaceable(s1, p', c, k, t.key)
    ensures Detach(RaiseDeep(s, k, t.key), path, c, k, t.key)
         == Substitute(Detach(s, p, c, t.key, s.lc[t.key]), p', c, k, t.key)
  {
    var q := t.key;
    var s1 := Detach(s, p, c, q, s.lc[q]);
    var a, b := Bypass(RaiseDeep(s, k, q), k, q), TakeOver(s1, k, q);
    assert s1.lc[k] == s.lc[k] && s1.rc[k] == s.rc[k] && s1.pa[k] == s.pa[k];
    assert a.lc == b.lc;
    assert a.rc == b.rc;
    assert a.pa == b.pa;
    SameHole(path, p', a, c, q);
  }

  /** What the code relies on when `q` is the left child of `k`. */
  ghost predicate Shallow(s: Links, path: Path, c: Byte, k: int, q: int) {
    && LinksAt(s, k) && LinksAt(s, q) && InRange(path, s) && s.pa[q] == k && s.lc[k] == q
    && k != q && s.rc[k] != q && s.lc[q] != q && s.lc[q] != k && s.rc[k] != k
    && (s.lc[q] != s.nil ==> s.pa[s.lc[q]] == q && s.lc[q] != s.rc[k])
    && s.pa[k] == HolePar(path, s, c) && s.pa[k] != q
    && (s.rc[s.pa[k]] == k <==> !path.InLeft?)
  }

  /** Both ways write the same links, but for the left child of the node that goes. */
  lemma ShallowArrays(s: Links, path: Path, c: Byte, p: Path, t: Tree, k: int)
    requires t.Node? && p.InLeft? && p.key == k && InRange(p, s) && Shallow(s, path, c, k, t.key)
    ensures var s1 := Detach(s, p, c, t.key, s.lc[t.key]);
      s1.nil == s.nil ==> (var a, b := Bypass(RaiseChild(s, k, t.key), k, t.key), TakeOver(s1, k, t.key);
        && a.rc == b.rc && s1.pa[k] == s.pa[k] && s1.rc == s.rc
        && (forall x :: 0 <= x < s.nil ==> a.pa[x] == b.pa[x])
        && (forall x :: 0 <= x < s.nil && x != k ==> a.lc[x] == b.lc[x]))
  {
    var s1 := Detach(s, p, c, t.key, s.lc[t.key]);
    assert s1.lc[k] == s.lc[t.key] && s1.rc == s.rc && s1.pa[k] == s.pa[k];
  }

  lemma ShallowIsMoveUp(ts: seq<Tree>, s: Links, text: seq<Byte>, f: nat, path: Path, c: Byte, p: Path, t: Tree, k: int, p': Path)
    requires t.Node? && p.InLeft? && p.key == k && InRange(p, s) && Shallow(s, path, c, k, t.key)
    requires var s1 := Detach(s, p, c, t.key, s.lc[t.key]);
      s1.nil == s.nil && Replaceable(s1, p', c, k, t.key) && IsForest(ts, Substitute(s1, p', c, k, t.key), text, f)
    ensures IsForest(ts, Detach(RaiseChild(s, k, t.key), path, c, k, t.key), text, f)
  {
    var q := t.key;
    var s1 := Detach(s, p, c, q, s.lc[q]);
    var a, b := Bypass(RaiseChild(s, k, q), k, q), TakeOver(s1, k, q);
    ShallowArrays(s, path, c, p, t, k);
    assert HolePar(path, s, c) == HolePar(p', s1, c) && (path.InLeft? <==> p'.InLeft?);
    AbsentFrame(ts, WriteHole(p', b, c, q), WriteHole(path, a, c, q), text, f);
  }

  /** The links around the node at the end of a path. */
  ghost predicate NodeAt(s: Links, c: Byte, p: Path, t: Tree) {
    && t.Node? && InRange(p, s) && LinksAt(s, t.key) && RootFresh(t) && Off(p, Keys(t))
    && s.pa[t.key] == HolePar(p, s, c) && (s.rc[HolePar(p, s, c)] == t.key <==> !p.InLeft?)
    && (p.InLeft? ==> s.lc[p.key] == t.key)
    && (s.lc[t.key] == s.nil || (s.lc[t.key] in Keys(t.left) && s.pa[s.lc[t.key]] == t.key))
    && (s.rc[t.key] == s.nil || (s.rc[t.key] in Keys(t.right) && s.pa[s.rc[t.key]] == t.key))
    && (s.lc[t.key] == s.nil <==> t.left.Leaf?) && (s.rc[t.key] == s.nil <==> t.right.Leaf?)
    && (t.left.Node? ==> s.lc[t.key] == t.left.key) && (t.right.Node? ==> s.rc[t.key] == t.right.key)
  }

  lemma {:induction false} IsNodeAt(ts: seq<Tree>, s: Links, text: seq<Byte>, f: nat, c: Byte, p: Path, t: Tree)
    requires IsForest(ts, s, text, f) && t.Node? && ts[c] == Plug(p, t)
    ensures NodeAt(s, c, p, t)
  {
    AtPath(ts, s, text, f, c, p, t);
    HangsRight(ts, s, text, f, c, p, t);
    OrderedRootFresh(text, f, t);
    RepLink(t.left, s, s.lc[t.key], t.key);
    RepLink(t.right, s, s.rc[t.key], t.key);
  }

  lemma {:induction false} DeepHolds(s: Links, c: Byte, path: Path, t0: Tree, p: Path, t: Tree)
    requires NodeAt(s, c, path, t0) && NodeAt(s, c, p, t)
    requires p.InRight? && Keys(t) <= Keys(t0.left) && p.key in Keys(t0.left)
    ensures Deep(s, path, c, t0.key, t.key) && s.pa[t.key] == p.key
  {
    assert t.key in Keys(t) && t0.key in Keys(t0) && Keys(t0.left) <= Keys(t0);
  }

  lemma ShallowHolds(s: Links, c: Byte, path: Path, t0: Tree)
    requires NodeAt(s, c, path, t0) && t0.left.Node? && NodeAt(s, c, InLeft(path, t0.key, t0.right), t0.left)
    ensures Shallow(s, path, c, t0.key, t0.left.key)
  {
    assert t0.left.key in Keys(t0.left) && t0.key in Keys(t0) && Keys(t0.left) <= Keys(t0);
  }

  /** In the arrays `s`, letting `q` replace `k` below `path` gives tree `c` the shape `t'`. */
  ghost predicate Ready(ts: seq<Tree>, s: Links, text: seq<Byte>, f: nat, c: Byte, path: Path, k: int, q: int, t': Tree) {
    && |ts| == 256 && 0 <= k < s.nil && 0 <= q <= s.nil && q != k && InRange(path, s)
    && s.pa[k] == HolePar(path, s, c) && (s.rc[HolePar(path, s, c)] == k <==> !path.InLeft?)
    && IsForest(ts[c := t'], Detach(s, path, c, k, q), text, f)
    && InOrder(t') == Without(InOrder(ts[c]), k)
  }

  lemma {:induction false} OneChildReady(ts: seq<Tree>, s: Links, text: seq<Byte>, f: nat, c: Byte, path: Path, t0: Tree, t: Tree, q: int)
    requires IsForest(ts, s, text, f) && t0.Node? && ts[c] == Plug(path, t0) && NodeAt(s, c, path, t0)
    requires (t == t0.left && t0.right.Leaf? && q == s.lc[t0.key])
          || (t == t0.right && t0.left.Leaf? && q == s.rc[t0.key])
    ensures Ready(ts, s, text, f, c, path, t0.key, q, Plug(path, t))
  {
    DetachKeepsForest(ts, s, text, f, c, path, t0, t, q);
    assert HasTree(ts[c], s, text, f, c);
    OneChildOrder(text, f, path, t0, t);
  }

  lemma {:induction false} OneChildOrder(text: seq<Byte>, f: nat, path: Path, t0: Tree, t: Tree)
    requires t0.Node? && Ordered(text, f, InOrder(Plug(path, t0)))
    requires (t == t0.left && t0.right.Leaf?) || (t == t0.right && t0.left.Leaf?)
    ensures InOrder(Plug(path, t)) == Without(InOrder(Plug(path, t0)), t0.key)
  {
    var x, y := Before(path) + InOrder(t0.left), InOrder(t0.right) + After(path);
    PlugNodeInOrder(path, t0.left, t0.key, t0.right);
    PlugInOrder(path, t);
    WithoutOrdered(text, f, x, t0.key, y);
    Regroup(Before(path), InOrder(t0.left), InOrder(t0.right), After(path));
  }

  lemma Regroup(a: seq<int>, b: seq<int>, c: seq<int>, d: seq<int>)
    ensures (a + b) + (c + d) == a + (b + c) + d
    ensures b + [] == b && [] + c == c
  {
  }

  lemma ShallowReady(ts: seq<Tree>, s: Links, text: seq<Byte>, f: nat, c: Byte, path: Path, t0: Tree) returns (t': Tree)
    requires IsForest(ts, s, text, f) && ts[c] == Plug(path, t0) && NodeAt(s, c, path, t0)
    requires t0.left.Node? && t0.left.right.Leaf?
    ensures 0 <= t0.left.key < s.nil
    ensures Ready(ts, RaiseChild(s, t0.key, t0.left.key), text, f, c, path, t0.key, t0.left.key, t')
  {
    var p, t := InLeft(path, t0.key, t0.right), t0.left;
    IsNodeAt(ts, s, text, f, c, p, t);
    ShallowHolds(s, c, path, t0);
    var p';
    p', t' := MoveUp(ts, s, text, f, c, p, t, t0.key);
    ShallowIsMoveUp(ts[c := t'], s, text, f, path, c, p, t, t0.key, p');
  }

  lemma DeepReady(ts: seq<Tree>, s: Links, text: seq<Byte>, f: nat, c: Byte, path: Path, k: int, p: Path, t: Tree) returns (t': Tree)
    requires IsForest(ts, s, text, f) && Predecessor(ts, s, c, p, t, k) && p.InRight?
    requires Deep(s, path, c, k, t.key) && s.pa[t.key] == p.key
    ensures Ready(ts, RaiseDeep(s, k, t.key), text, f, c, path, k, t.key, t')
  {
    var p';
    p', t' := MoveUp(ts, s, text, f, c, p, t, k);
    DeepIsMoveUp(s, path, c, p, t, k, p');
  }
}
