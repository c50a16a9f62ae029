/**
 * Search trees held in three integer arrays.
 *
 * `Tree` is the shape, `Links` the contents of the arrays, and `Rep` says that a link
 * points at the array representation of a shape.  A `Path` is a tree with one subtree
 * cut out: the state of a descent that has reached some link.
 */
module LzssForest {
  import opened Basics
  import opened LzssOrder

  datatype Tree = Leaf | Node(left: Tree, key: int, right: Tree)

  datatype Path =
    | Top
    | InLeft(up: Path, key: int, right: Tree)
    | InRight(up: Path, left: Tree, key: int)

  /** The three arrays.  `nil` is the "no node" link; nodes are 0..nil-1, and the root
      slot of the tree for byte `c` is `rc[nil + 1 + c]`. */
  datatype Arrays = Arrays(nil: nat, lc: seq<int>, rc: seq<int>, pa: seq<int>)

  type Links = s: Arrays | |s.lc| == s.nil + 1 && |s.rc| == s.nil + 257 && |s.pa| == s.nil + 1
    witness Arrays(0, [0], seq(257, _ => 0), [0])

  function RootOf(s: Links, c: Byte): (root: int)
    ensures s.nil < root < |s.rc|
  {
    s.nil + 1 + c
  }

  function InOrder(t: Tree): seq<int> {
    match t
    case Leaf => []
    case Node(l, k, r) => InOrder(l) + [k] + InOrder(r)
  }

  /** Keys that come before, and after, the cut-out subtree. */
  function Before(p: Path): seq<int> {
    match p
    case Top => []
    case InLeft(up, _, _) => Before(up)
    case InRight(up, l, k) => Before(up) + (InOrder(l) + [k])
  }

  function After(p: Path): seq<int> {
    match p
    case Top => []
    case InLeft(up, k, r) => ([k] + InOrder(r)) + After(up)
    case InRight(up, _, _) => After(up)
  }

  function Plug(p: Path, t: Tree): Tree {
    match p
    case Top => t
    case InLeft(up, k, r) => Plug(up, Node(t, k, r))
    case InRight(up, l, k) => Plug(up, Node(l, k, t))
  }

  function Keys(t: Tree): set<int> {
    match t
    case Leaf => {}
    case Node(l, k, r) => Keys(l) + {k} + Keys(r)
  }

  function PathKeys(p: Path): set<int> {
    match p
    case Top => {}
    case InLeft(up, k, r) => PathKeys(up) + {k} + Keys(r)
    case InRight(up, l, k) => PathKeys(up) + Keys(l) + {k}
  }

  lemma {:induction false} KeysInOrder(t: Tree)
    ensures forall k :: k in Keys(t) <==> k in InOrder(t)
  {
    match t
    case Leaf =>
    case Node(l, _, r) => KeysInOrder(l); KeysInOrder(r);
  }

  lemma {:induction false} PathKeysInOrder(p: Path)
    ensures forall k :: k in PathKeys(p) <==> k in Before(p) || k in After(p)
  {
    match p
    case Top =>
    case InLeft(up, _, r) => PathKeysInOrder(up); KeysInOrder(r);
    case InRight(up, l, _) => PathKeysInOrder(up); KeysInOrder(l);
  }

  lemma {:induction false} PlugKeys(p: Path, t: Tree)
    ensures Keys(Plug(p, t)) == PathKeys(p) + Keys(t)
    ensures !p.Top? ==> p.key in PathKeys(p)
  {
    match p
    case Top =>
    case InLeft(up, k, r) => PlugKeys(up, Node(t, k, r));
    case InRight(up, l, k) => PlugKeys(up, Node(l, k, t));
  }

  lemma MoveRight(a: seq<int>, t: seq<int>, k: int, r: seq<int>, b: seq<int>)
    ensures a + (t + [k] + r) + b == a + t + (([k] + r) + b)
  {
  }

  lemma MoveLeft(a: seq<int>, l: seq<int>, k: int, t: seq<int>, b: seq<int>)
    ensures a + (l + [k] + t) + b == a + (l + [k]) + t + b
  {
  }

  lemma {:induction false} PlugInOrder(p: Path, t: Tree)
    ensures InOrder(Plug(p, t)) == Before(p) + InOrder(t) + After(p)
  {
    match p
    case Top =>
    case InLeft(up, k, r) =>
      PlugInOrder(up, Node(t, k, r));
      MoveRight(Before(up), InOrder(t), k, InOrder(r), After(up));
    case InRight(up, l, k) =>
      PlugInOrder(up, Node(l, k, t));
      MoveLeft(Before(up), InOrder(l), k, InOrder(t), After(up));
  }

  /** Every key of a tree sits at the end of some path. */
  lemma {:induction false} FindPath(p: Path, t: Tree, k: int) returns (q: Path, l: Tree, r: Tree)
    requires k in Keys(t)
    ensures Plug(q, Node(l, k, r)) == Plug(p, t)
    decreases t
  {
    if k == t.key {
      q, l, r := p, t.left, t.right;
    } else if k in Keys(t.left) {
      q, l, r := FindPath(InLeft(p, t.key, t.right), t.left, k);
    } else {
      q, l, r := FindPath(InRight(p, t.left, t.key), t.right, k);
    }
  }

  // ---------- order ----------

  predicate InText(text: seq<Byte>, f: nat, k: int) {
    0 <= k && k + f <= |text|
  }

  /** Both nodes have strings, and that of `a` is the smaller. */
  predicate Precedes(text: seq<Byte>, f: nat, a: int, b: int) {
    InText(text, f, a) && InText(text, f, b) && Less(Str(text, f, a), Str(text, f, b))
  }

  ghost predicate Ordered(text: seq<Byte>, f: nat, ks: seq<int>) {
    && (forall k :: k in ks ==> InText(text, f, k))
    && forall i, j :: 0 <= i < j < |ks| ==> Precedes(text, f, ks[i], ks[j])
  }

  lemma OrderedConcat(text: seq<Byte>, f: nat, a: seq<int>, b: seq<int>)
    ensures Ordered(text, f, a + b) <==>
      && Ordered(text, f, a)
      && Ordered(text, f, b)
      && forall x, y :: x in a && y in b ==> Precedes(text, f, x, y)
  {
    var c := a + b;
    if Ordered(text, f, c) {
      forall x, y | x in a && y in b ensures Precedes(text, f, x, y) {
        var i :| 0 <= i < |a| && a[i] == x;
        var j :| 0 <= j < |b| && b[j] == y;
        assert c[i] == x && c[|a| + j] == y;
      }
      forall i, j | 0 <= i < j < |b| ensures Precedes(text, f, b[i], b[j]) {
        assert c[|a| + i] == b[i] && c[|a| + j] == b[j];
      }
      assert forall i :: 0 <= i < |a| ==> c[i] == a[i];
      assert forall k :: k in a || k in b ==> k in c;
    }
  }

  /** Parts of an ordered sequence share no key. */
  lemma OrderedDisjoint(text: seq<Byte>, f: nat, a: seq<int>, b: seq<int>)
    requires Ordered(text, f, a + b)
    ensures forall x :: x in a ==> x !in b
  {
    OrderedConcat(text, f, a, b);
    forall x | x in a ensures x !in b {
      Trichotomy(Str(text, f, x), Str(text, f, x));
      assert !Precedes(text, f, x, x);
    }
  }

  // ---------- representation ----------

  /** `link`, found in `par`, is the root of `t` in the arrays `s`. */
  ghost predicate Rep(t: Tree, s: Links, link: int, par: int) {
    match t
    case Leaf => link == s.nil
    case Node(l, k, r) =>
      link == k && 0 <= k < s.nil && s.pa[k] == par && Rep(l, s, s.lc[k], k) && Rep(r, s, s.rc[k], k)
  }

  /** The node, or root slot of tree `c`, that holds the link a path ends at. */
  function HolePar(p: Path, s: Links, c: Byte): int {
    if p.Top? then RootOf(s, c) else p.key
  }

  /** The link stored where the path's cut-out subtree hangs. */
  function Hole(p: Path, s: Links, c: Byte): int {
    match p
    case Top => s.rc[RootOf(s, c)]
    case InLeft(_, k, _) => if 0 <= k < s.nil then s.lc[k] else -1
    case InRight(_, _, k) => if 0 <= k < s.nil then s.rc[k] else -1
  }

  ghost predicate PathRep(p: Path, s: Links, c: Byte) {
    match p
    case Top => true
    case InLeft(up, k, r) =>
      && 0 <= k < s.nil && Hole(up, s, c) == k && s.pa[k] == HolePar(up, s, c)
      && Rep(r, s, s.rc[k], k) && PathRep(up, s, c)
    case InRight(up, l, k) =>
      && 0 <= k < s.nil && Hole(up, s, c) == k && s.pa[k] == HolePar(up, s, c)
      && Rep(l, s, s.lc[k], k) && PathRep(up, s, c)
  }

  /** A tree is represented exactly when a path into it and the subtree below are. */
  lemma {:induction false} PlugRep(p: Path, t: Tree, s: Links, c: Byte)
    ensures Rep(Plug(p, t), s, s.rc[RootOf(s, c)], RootOf(s, c))
       <==> PathRep(p, s, c) && Rep(t, s, Hole(p, s, c), HolePar(p, s, c))
  {
    match p
    case Top =>
    case InLeft(up, k, r) => PlugRep(up, Node(t, k, r), s, c);
    case InRight(up, l, k) => PlugRep(up, Node(l, k, t), s, c);
  }

  /** The node `k` has the same links in `s` and `s'`. */
  ghost predicate SameAt(s: Links, s': Links, k: int) {
    0 <= k < s.nil && s.nil == s'.nil ==> s.lc[k] == s'.lc[k] && s.rc[k] == s'.rc[k] && s.pa[k] == s'.pa[k]
  }

  lemma {:induction false} RepFrame(t: Tree, s: Links, s': Links, link: int, par: int)
    requires s.nil == s'.nil
    requires Rep(t, s, link, par)
    requires forall k :: k in Keys(t) ==> SameAt(s, s', k)
    ensures Rep(t, s', link, par)
  {
    match t
    case Leaf =>
    case Node(l, k, r) =>
      assert k in Keys(t);
      RepFrame(l, s, s', s.lc[k], k);
      RepFrame(r, s, s', s.rc[k], k);
  }

  lemma {:induction false} RepKeys(t: Tree, s: Links, link: int, par: int)
    requires Rep(t, s, link, par)
    ensures forall k :: k in Keys(t) ==> 0 <= k < s.nil && (s.pa[k] in Keys(t) || s.pa[k] == par)
  {
    match t
    case Leaf =>
    case Node(l, k, r) =>
      RepKeys(l, s, s.lc[k], k);
      RepKeys(r, s, s.rc[k], k);
  }

  /** The node the path hangs from occurs nowhere else on the path. */
  ghost predicate Fresh(p: Path) {
    match p
    case Top => true
    case InLeft(up, k, r) => k !in PathKeys(up) && k !in Keys(r) && Fresh(up)
    case InRight(up, l, k) => k !in PathKeys(up) && k !in Keys(l) && Fresh(up)
  }

  lemma {:induction false} OrderedFresh(text: seq<Byte>, f: nat, p: Path, t: Tree)
    requires Ordered(text, f, InOrder(Plug(p, t)))
    ensures Fresh(p) && Keys(t) !! PathKeys(p)
  {
    PlugInOrder(p, t);
    OrderedConcat(text, f, Before(p) + InOrder(t), After(p));
    OrderedDisjoint(text, f, Before(p) + InOrder(t), After(p));
    OrderedDisjoint(text, f, Before(p), InOrder(t));
    KeysInOrder(t);
    PathKeysInOrder(p);
    forall k | k in Keys(t) ensures k !in PathKeys(p) {
      assert k in Before(p) + InOrder(t);
    }
    match p
    case Top =>
    case InLeft(up, k, r) =>
      OrderedFresh(text, f, up, Node(t, k, r));
      OrderedConcat(text, f, [k] + InOrder(r), After(up));
      OrderedDisjoint(text, f, [k], InOrder(r));
      KeysInOrder(r);
      assert k in [k] && k in Keys(Node(t, k, r));
    case InRight(up, l, k) =>
      OrderedFresh(text, f, up, Node(l, k, t));
      OrderedConcat(text, f, Before(p), InOrder(t));
      OrderedConcat(text, f, Before(up), InOrder(l) + [k]);
      OrderedDisjoint(text, f, InOrder(l), [k]);
      KeysInOrder(l);
      assert k in [k] && k in Keys(Node(l, k, t));
  }

  /** What may differ when only the link a path ends at is rewritten. */
  ghost predicate SameBesideHole(p: Path, s: Links, s': Links) {
    match p
    case Top => true
    case InLeft(_, k, _) => 0 <= k < s.nil && s.nil == s'.nil ==> s.pa[k] == s'.pa[k] && s.rc[k] == s'.rc[k]
    case InRight(_, _, k) => 0 <= k < s.nil && s.nil == s'.nil ==> s.pa[k] == s'.pa[k] && s.lc[k] == s'.lc[k]
  }

  lemma {:induction false} PathFrame(p: Path, s: Links, s': Links, c: Byte)
    requires s.nil == s'.nil
    requires PathRep(p, s, c) && Fresh(p)
    requires SameBesideHole(p, s, s')
    requires forall k :: k in PathKeys(p) && k != HolePar(p, s, c) ==> SameAt(s, s', k)
    requires !p.Top? ==> s.rc[RootOf(s, c)] == s'.rc[RootOf(s, c)]
    ensures PathRep(p, s', c)
    decreases p, 0
  {
    match p
    case Top =>
    case InLeft(up, k, r) =>
      RepFrame(r, s, s', s.rc[k], k);
      PathUpFrame(up, s, s', c);
    case InRight(up, l, k) =>
      RepFrame(l, s, s', s.lc[k], k);
      PathUpFrame(up, s, s', c);
  }

  lemma {:induction false} PathUpFrame(up: Path, s: Links, s': Links, c: Byte)
    requires s.nil == s'.nil
    requires PathRep(up, s, c) && Fresh(up)
    requires forall x :: x in PathKeys(up) ==> SameAt(s, s', x)
    requires s.rc[RootOf(s, c)] == s'.rc[RootOf(s, c)]
    ensures PathRep(up, s', c) && Hole(up, s', c) == Hole(up, s, c)
    decreases up, 1
  {
    PlugKeys(up, Leaf);
    assert !up.Top? ==> SameAt(s, s', up.key);
    PathFrame(up, s, s', c);
  }
}
