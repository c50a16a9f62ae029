/**
 * The encoder's state: a text buffer and 256 search trees in three arrays.
 */
module LzssEncodeState {
  import opened Basics
  import opened LzssOrder
  import opened LzssForest
  import opened LzssRelink
  import opened LzssSearch
  import opened LzssDelete

  /** The nodes marked as being in a tree. */
  ghost function LiveNodes(s: Links): set<int> {
    set k | 0 <= k < s.nil && s.pa[k] != s.nil
  }

  /** `len` is the longest match of `r` with a node of `live`, and `pos` attains it. */
  ghost predicate LongestMatch(text: seq<Byte>, f: nat, live: set<int>, r: int, len: int, pos: int) {
    && 0 <= len <= f
    && (forall k :: k in live ==> Common(text, f, k, r) <= len)
    && (len > 0 ==> pos in live && Common(text, f, pos, r) == len)
  }

  /** The best match with the tree of `r`'s first byte is the best match of all. */
  lemma TreeMatchIsLongest(ts: seq<Tree>, s: Links, text: seq<Byte>, f: nat, r: int, len: nat, pos: int)
    requires IsForest(ts, s, text, f) && 0 <= r < s.nil && len <= f
    requires forall k :: k in Keys(ts[text[r]]) ==> Common(text, f, k, r) <= len
    requires len > 0 ==> pos in Keys(ts[text[r]]) && Common(text, f, pos, r) == len
    ensures LongestMatch(text, f, LiveNodes(s), r, len, pos)
  {
    var c := text[r];
    forall k | k in LiveNodes(s) ensures Common(text, f, k, r) <= len {
      if text[k] != c {
        var x, y := Str(text, f, k), Str(text, f, r);
        assert x[0] == text[k] && y[0] == c;
        MatchIs(x, y, 0);
      }
    }
    assert HasTree(ts[c], s, text, f, c);
    RepKeys(ts[c], s, s.rc[RootOf(s, c)], RootOf(s, c));
  }

  /** Inserting at the empty link where a descent for `r` ended. */
  lemma {:induction false} InsertAtBottom(ts: seq<Tree>, s: Links, text: seq<Byte>, f: nat, p: Path, r: int, m: nat)
    requires IsForest(ts, s, text, f) && 0 <= r < s.nil && s.pa[r] == s.nil
    requires ts[text[r]] == Plug(p, Leaf) && Around(text, f, r, p, m)
    ensures InRange(p, s)
    ensures IsForest(ts[text[r] := Plug(p, Node(Leaf, r, Leaf))], Attach(s, p, text[r], r), text, f)
    ensures Without(InOrder(Plug(p, Node(Leaf, r, Leaf))), r) == InOrder(ts[text[r]])
  {
    var c := text[r];
    assert HasTree(ts[c], s, text, f, c);
    BottomOrder(text, f, p, r, m);
    AttachKeepsForest(ts, s, text, f, c, p, r);
  }

  lemma {:induction false} BottomOrder(text: seq<Byte>, f: nat, p: Path, r: int, m: nat)
    requires Ordered(text, f, InOrder(Plug(p, Leaf))) && Around(text, f, r, p, m) && InText(text, f, r)
    ensures Ordered(text, f, Before(p) + [r] + After(p))
    ensures Without(InOrder(Plug(p, Node(Leaf, r, Leaf))), r) == InOrder(Plug(p, Leaf))
  {
    PlugSmall(p, r);
    InsertOrder(text, f, Before(p), r, After(p));
    WithoutOrdered(text, f, Before(p), r, After(p));
  }

  /** Replacing the node whose whole string equals that of `r`. */
  lemma {:induction false} InsertOver(ts: seq<Tree>, s: Links, text: seq<Byte>, f: nat, p: Path, t: Tree, r: int)
    requires IsForest(ts, s, text, f) && 0 <= r < s.nil && s.pa[r] == s.nil
    requires t.Node? && ts[text[r]] == Plug(p, t) && Common(text, f, t.key, r) == f
    ensures InRange(p, s) && LinksAt(s, t.key)
    ensures IsForest(ts[text[r] := Plug(p, Node(t.left, r, t.right))], Substitute(s, p, text[r], t.key, r), text, f)
    ensures Without(InOrder(Plug(p, Node(t.left, r, t.right))), r) == Without(InOrder(ts[text[r]]), t.key)
  {
    var c := text[r];
    AtPath(ts, s, text, f, c, p, t);
    Trichotomy(Str(text, f, t.key), Str(text, f, r));
    PlugNodeInOrder(p, t.left, t.key, t.right);
    PlugNodeInOrder(p, t.left, r, t.right);
    SameStringOrder(text, f, Before(p) + InOrder(t.left), t.key, InOrder(t.right) + After(p), r);
    SubstituteKeepsForest(ts, s, text, f, c, p, t.left, t.key, t.right, r);
    WithoutOrdered(text, f, Before(p) + InOrder(t.left), t.key, InOrder(t.right) + After(p));
    WithoutOrdered(text, f, Before(p) + InOrder(t.left), r, InOrder(t.right) + After(p));
  }

  /** The live set after inserting `r`: one node per string, the newest. */
  ghost function Inserted(text: seq<Byte>, f: nat, live: set<int>, r: int): set<int> {
    (set k | k in live && Common(text, f, k, r) < f) + {r}
  }

  /** The trees are the live set: tree `c` lists the live nodes with first byte `c`. */
  lemma LiveTrees(ts: seq<Tree>, s: Links, text: seq<Byte>, f: nat, k: int)
    requires IsForest(ts, s, text, f)
    ensures k in LiveNodes(s) <==> 0 <= k < s.nil && k in InOrder(ts[text[k]])
  {
    if 0 <= k < s.nil {
      KeysInOrder(ts[text[k]]);
    }
  }

  /** No two nodes of the forest have the same string. */
  lemma SameStringSameNode(ts: seq<Tree>, s: Links, text: seq<Byte>, f: nat, x: int, y: int)
    requires IsForest(ts, s, text, f) && x in LiveNodes(s) && y in LiveNodes(s)
    requires Str(text, f, x) == Str(text, f, y)
    ensures x == y
  {
    var c := text[x];
    assert Str(text, f, x)[0] == c && Str(text, f, y)[0] == text[y];
    LiveTrees(ts, s, text, f, x);
    LiveTrees(ts, s, text, f, y);
    assert HasTree(ts[c], s, text, f, c);
    var ks := InOrder(ts[c]);
    var i :| 0 <= i < |ks| && ks[i] == x;
    var j :| 0 <= j < |ks| && ks[j] == y;
    Trichotomy(Str(text, f, x), Str(text, f, y));
    assert !Precedes(text, f, x, y) && !Precedes(text, f, y, x);
  }

  /** The nodes whose string is that of `r` are the one that matches it fully, if any. */
  lemma FullMatch(ts: seq<Tree>, s: Links, text: seq<Byte>, f: nat, r: int, len: int, pos: int, k: int)
    requires IsForest(ts, s, text, f) && 0 <= r < s.nil && LongestMatch(text, f, LiveNodes(s), r, len, pos) && k in LiveNodes(s)
    ensures Common(text, f, k, r) == f <==> len == f && k == pos
  {
    if Common(text, f, k, r) == f {
      Trichotomy(Str(text, f, k), Str(text, f, r));
      Trichotomy(Str(text, f, pos), Str(text, f, r));
      SameStringSameNode(ts, s, text, f, k, pos);
    }
  }

  /** The key sequence of tree `text[r]` gains `r` and loses the fully matched node. */
  ghost predicate GainsKey(ts: seq<Tree>, ts': seq<Tree>, text: seq<Byte>, f: nat, r: int, len: int, pos: int)
    requires |ts| == 256 && |ts'| == 256 && 0 <= r < |text|
  {
    && (forall c: Byte :: c != text[r] ==> InOrder(ts'[c]) == InOrder(ts[c]))
    && r in InOrder(ts'[text[r]])
    && Without(InOrder(ts'[text[r]]), r) == if len == f then Without(InOrder(ts[text[r]]), pos) else InOrder(ts[text[r]])
  }

  lemma GainsKeyMembers(ts: seq<Tree>, ts': seq<Tree>, text: seq<Byte>, f: nat, r: int, len: int, pos: int, k: int)
    requires |ts| == 256 && |ts'| == 256 && 0 <= r < |text| && 0 <= k < |text|
    requires GainsKey(ts, ts', text, f, r, len, pos)
    ensures k in InOrder(ts'[text[k]]) <==> k == r || (k in InOrder(ts[text[k]]) && !(text[k] == text[r] && len == f && k == pos))
  {
    WithoutMembers(InOrder(ts'[text[r]]), r);
    WithoutMembers(InOrder(ts[text[r]]), pos);
  }

  lemma InsertedLiveAt(ts: seq<Tree>, s: Links, ts': seq<Tree>, s': Links, text: seq<Byte>, f: nat, r: int, len: int, pos: int, k: int)
    requires IsForest(ts, s, text, f) && IsForest(ts', s', text, f) && s.nil == s'.nil && 0 <= r < s.nil && r !in LiveNodes(s)
    requires LongestMatch(text, f, LiveNodes(s), r, len, pos) && GainsKey(ts, ts', text, f, r, len, pos)
    ensures k in LiveNodes(s') <==> k == r || (k in LiveNodes(s) && Common(text, f, k, r) < f)
  {
    LiveTrees(ts, s, text, f, k);
    LiveTrees(ts', s', text, f, k);
    if 0 <= k < s.nil {
      GainsKeyMembers(ts, ts', text, f, r, len, pos, k);
      if k in LiveNodes(s) {
        FullMatch(ts, s, text, f, r, len, pos, k);
        PosFirstByte(text, f, r, len, pos);
      }
    }
  }

  lemma InsertedLive(ts: seq<Tree>, s: Links, ts': seq<Tree>, s': Links, text: seq<Byte>, f: nat, r: int, len: int, pos: int)
    requires IsForest(ts, s, text, f) && IsForest(ts', s', text, f) && s.nil == s'.nil && 0 <= r < s.nil && r !in LiveNodes(s)
    requires LongestMatch(text, f, LiveNodes(s), r, len, pos) && GainsKey(ts, ts', text, f, r, len, pos)
    ensures LiveNodes(s') == Inserted(text, f, LiveNodes(s), r)
  {
    forall k ensures k in LiveNodes(s') <==> k == r || (k in LiveNodes(s) && Common(text, f, k, r) < f) {
      InsertedLiveAt(ts, s, ts', s', text, f, r, len, pos, k);
    }
    InsertedIs(text, f, LiveNodes(s), r, LiveNodes(s'));
  }

  lemma InsertedIs(text: seq<Byte>, f: nat, live: set<int>, r: int, live': set<int>)
    requires forall k :: k in live' <==> k == r || (k in live && Common(text, f, k, r) < f)
    ensures live' == Inserted(text, f, live, r)
  {
    var next := Inserted(text, f, live, r);
    assert forall k :: k in next <==> k == r || (k in live && Common(text, f, k, r) < f);
    assert forall k :: k in live' <==> k in next;
  }

  lemma PosFirstByte(text: seq<Byte>, f: nat, r: int, len: int, pos: int)
    requires f >= 1 && len == f ==> InText(text, f, pos) && InText(text, f, r) && Common(text, f, pos, r) == f
    ensures f >= 1 && len == f ==> text[pos] == text[r]
  {
    if f >= 1 && len == f {
      Trichotomy(Str(text, f, pos), Str(text, f, r));
      assert Str(text, f, pos)[0] == text[pos] && Str(text, f, r)[0] == text[r];
    }
  }

  lemma {:induction false} DeletedLive(ts: seq<Tree>, s: Links, ts': seq<Tree>, s': Links, text: seq<Byte>, f: nat, p: int)
    requires IsForest(ts, s, text, f) && IsForest(ts', s', text, f) && s.nil == s'.nil
    requires forall c: Byte :: InOrder(ts'[c]) == Without(InOrder(ts[c]), p)
    ensures LiveNodes(s') == LiveNodes(s) - {p}
  {
    forall k ensures k in LiveNodes(s') <==> k in LiveNodes(s) - {p} {
      LiveTrees(ts, s, text, f, k);
      LiveTrees(ts', s', text, f, k);
      if 0 <= k < s.nil {
        WithoutMembers(InOrder(ts[text[k]]), p);
      }
    }
  }

  lemma {:induction false} RootInOrder(p: Path, l: Tree, k: int, r: Tree)
    ensures k in InOrder(Plug(p, Node(l, k, r)))
  {
    PlugNodeInOrder(p, l, k, r);
  }

  /** What a descent reads when it has come to the subtree `t`. */
  lemma {:induction false} AtLink(ts: seq<Tree>, s: Links, text: seq<Byte>, f: nat, c: Byte, p: Path, t: Tree)
    requires IsForest(ts, s, text, f) && ts[c] == Plug(p, t)
    ensures InRange(p, s) && Ordered(text, f, InOrder(t)) && (t.Leaf? <==> Hole(p, s, c) == s.nil)
    ensures t.Node? ==> Hole(p, s, c) == t.key && 0 <= t.key < s.nil && text[t.key] == c && t.key in Keys(ts[c])
  {
    AtPath(ts, s, text, f, c, p, t);
    PlugKeys(p, t);
    assert t.Node? ==> t.key in Keys(t);
  }

  /** A node can only be in the tree of its first byte. */
  lemma {:induction false} NotElsewhere(ts: seq<Tree>, s: Links, text: seq<Byte>, f: nat, k: int)
    requires IsForest(ts, s, text, f) && 0 <= k < s.nil
    ensures forall c: Byte :: k in InOrder(ts[c]) <==> c == text[k] && s.pa[k] != s.nil
    ensures forall c: Byte :: c != text[k] || s.pa[k] == s.nil ==> Without(InOrder(ts[c]), k) == InOrder(ts[c])
  {
    forall c: Byte
      ensures k in InOrder(ts[c]) <==> c == text[k] && s.pa[k] != s.nil
      ensures c != text[k] || s.pa[k] == s.nil ==> Without(InOrder(ts[c]), k) == InOrder(ts[c])
    {
      assert HasTree(ts[c], s, text, f, c);
      KeysInOrder(ts[c]);
      if k !in InOrder(ts[c]) {
        WithoutAbsent(InOrder(ts[c]), k);
      }
    }
  }

  ghost predicate NoLinks(s: Links) {
    (forall j :: s.nil + 1 <= j < s.nil + 257 ==> s.rc[j] == s.nil) && forall j :: 0 <= j < s.nil ==> s.pa[j] == s.nil
  }

  lemma EmptyForest(ts: seq<Tree>, s: Links, text: seq<Byte>, f: nat)
    requires NoLinks(s) && |ts| == 256 && (forall c: Byte :: ts[c] == Leaf) && f >= 1 && |text| == s.nil + f - 1
    ensures IsForest(ts, s, text, f) && LiveNodes(s) == {}
  {
    assert forall c: Byte :: HasTree(ts[c], s, text, f, c);
  }

  class EncodeState {
    const N: nat
    const F: nat
    const lchild: array<int>
    const rchild: array<int>
    const parent: array<int>
    const textBuf: array<Byte>
    var matchPosition: int
    var matchLength: int
    ghost var forest: seq<Tree>

    ghost predicate Shape() {
      && lchild.Length == N + 1 && rchild.Length == N + 257 && parent.Length == N + 1
      && F >= 1 && textBuf.Length == N + F - 1
      && lchild != rchild && lchild != parent && rchild != parent
    }

    ghost function View(): (s: Links)
      requires Shape()
      reads lchild, rchild, parent
      ensures s.nil == N
    {
      Arrays(N, lchild[..], rchild[..], parent[..])
    }

    ghost predicate Valid()
      reads this, lchild, rchild, parent, textBuf
    {
      Shape() && IsForest(forest, View(), textBuf[..], F)
    }

    ghost function Live(): set<int>
      requires Shape()
      reads lchild, rchild, parent
    {
      LiveNodes(View())
    }

    /** The nodes of tree `c`, left to right. */
    ghost function Traversal(c: Byte): seq<int>
      requires |forest| == 256
      reads this
    {
      InOrder(forest[c])
    }

    constructor (n: nat, f: nat)
      requires f >= 1
      ensures Shape() && N == n && F == f
      ensures fresh(lchild) && fresh(rchild) && fresh(parent) && fresh(textBuf)
    {
      N, F := n, f;
      lchild := new int[n + 1];
      rchild := new int[n + 257];
      parent := new int[n + 1];
      textBuf := new Byte[n + f - 1];
      matchPosition, matchLength := 0, 0;
    }

    /** Zeroed text with blanks up to the last `F` bytes of the ring. */
    method FillText()
      requires Shape()
      modifies textBuf
      ensures forall i :: 0 <= i < textBuf.Length ==> textBuf[i] == if i < N - F then 32 else 0
    {
      forall i | 0 <= i < textBuf.Length { textBuf[i] := 0; }
      var i := 0;
      while i < N - F
        invariant 0 <= i && (N >= F ==> i <= N - F) && (N < F ==> i == 0)
        invariant forall j :: 0 <= j < textBuf.Length ==> textBuf[j] == if j < i then 32 else 0
      {
        textBuf[i] := 32;
        i := i + 1;
      }
    }

    /** Zeroed links, but no tree has a root and no node a parent. */
    method UnlinkAll()
      requires Shape()
      modifies lchild, rchild, parent
      ensures NoLinks(View())
    {
      forall i | 0 <= i < lchild.Length { lchild[i] := 0; }
      forall i | 0 <= i < rchild.Length { rchild[i] := 0; }
      forall i | 0 <= i < parent.Length { parent[i] := 0; }
      var i := N + 1;
      while i <= N + 256
        modifies rchild
        invariant N + 1 <= i <= N + 257 && forall j :: N + 1 <= j < i ==> rchild[j] == N
      {
        rchild[i] := N;
        i := i + 1;
      }
      i := 0;
      while i < N
        modifies parent
        invariant 0 <= i <= N && forall j :: 0 <= j < i ==> parent[j] == N
      {
        parent[i] := N;
        i := i + 1;
      }
    }

    /** Empties the trees, and fills the text with blanks. */
    method InitState()
      requires Shape()
      modifies this, lchild, rchild, parent, textBuf
      ensures Valid() && Live() == {} && matchLength == 0 && matchPosition == 0
      ensures forall i :: 0 <= i < textBuf.Length ==> textBuf[i] == if i < N - F then 32 else 0
    {
      matchPosition, matchLength := 0, 0;
      FillText();
      UnlinkAll();
      forest := seq(256, _ => Leaf);
      EmptyForest(forest, View(), textBuf[..], F);
    }

    method Compare(r: int, p: int, cmp0: int) returns (i: int, cmp: int)
      requires Shape() && 0 <= r < N && 0 <= p < N && textBuf[r] == textBuf[p]
      ensures 1 <= i <= F && i == Common(textBuf[..], F, p, r)
      ensures i < F ==> if cmp >= 0 then Precedes(textBuf[..], F, p, r) else Precedes(textBuf[..], F, r, p)
    {
      cmp := cmp0;
      i := 1;
      ghost var x, y := Str(textBuf[..], F, r), Str(textBuf[..], F, p);
      while i < F
        invariant 1 <= i <= F
        invariant forall j :: 0 <= j < i ==> x[j] == y[j]
      {
        cmp := textBuf[r + i] as int - textBuf[p + i] as int;
        assert x[i] == textBuf[r + i] && y[i] == textBuf[p + i];
        if cmp != 0 {
          break;
        }
        i := i + 1;
      }
      MatchIs(y, x, i);
      MatchIs(x, y, i);
    }

    /** Store `r` in the child link of `q` that holds `p`. */
    method Redirect(q: int, p: int, r: int, ghost path: Path, ghost c: Byte)
      requires Shape() && InRange(path, View()) && q == HolePar(path, View(), c)
      requires rchild[q] == p <==> !path.InLeft?
      modifies lchild, rchild
      ensures View() == WriteHole(path, old(View()), c, r)
    {
      if rchild[q] == p {
        rchild[q] := r;
      } else {
        lchild[q] := r;
      }
    }

    /** Hang the fresh leaf `r` in the empty link that a descent ended at. */
    method LinkLeaf(r: int, p: int, cmp: int, ghost path: Path, ghost c: Byte)
      requires Shape() && 0 <= r < N && lchild[r] == N && rchild[r] == N
      requires InRange(path, View()) && p == HolePar(path, View(), c) && (cmp < 0 <==> path.InLeft?)
      modifies lchild, rchild, parent
      ensures View() == Attach(old(View()), path, c, r)
    {
      ghost var s := View();
      if cmp >= 0 {
        rchild[p] := r;
      } else {
        lchild[p] := r;
      }
      parent[r] := p;
      assert View().pa == MakeLeaf(s, r, p).pa;
    }

    /** Put `r` in the place of `p`. */
    method Replace(p: int, r: int, ghost path: Path, ghost c: Byte)
      requires Shape() && Replaceable(View(), path, c, p, r)
      modifies lchild, rchild, parent
      ensures View() == Substitute(old(View()), path, c, p, r)
    {
      ghost var s := View();
      parent[r] := parent[p];
      lchild[r] := lchild[p];
      rchild[r] := rchild[p];
      parent[lchild[p]] := r;
      parent[rchild[p]] := r;
      Redirect(parent[p], p, r, path, c);
      parent[p] := N;
      assert View().pa == TakeOver(s, p, r).pa;
    }

    /** The link to follow from p, N when there is none. */
    method Child(p: int, cmp: int, ghost c: Byte, ghost path: Path, ghost sub: Tree) returns (q: int)
      requires Valid() && forest[c] == Plug(path, sub)
      requires p == HolePar(path, View(), c) && (cmp < 0 <==> path.InLeft?)
      ensures q == N <==> sub.Leaf?
      ensures q != N ==> 0 <= q < N && textBuf[q] == c && q == sub.key && q in Keys(forest[c])
      ensures Ordered(textBuf[..], F, InOrder(sub))
    {
      AtLink(forest, View(), textBuf[..], F, c, path, sub);
      q := if cmp >= 0 then rchild[p] else lchild[p];
    }

    /** The search of `InsertNode`: walk down tree `textBuf[r]` until an empty link or a
        full match, keeping the longest match seen. */
    method Descend(r: int) returns (p: int, cmp: int, ghost path: Path, ghost sub: Tree)
      requires Valid() && 0 <= r < N
      modifies this`matchPosition, this`matchLength
      ensures forest[textBuf[r]] == Plug(path, sub) && 0 <= matchLength <= F
      ensures matchLength > 0 ==>
        matchPosition in Keys(forest[textBuf[r]]) && Common(textBuf[..], F, matchPosition, r) == matchLength
      ensures matchLength == F ==> sub.Node? && sub.key == p == matchPosition
      ensures matchLength < F ==>
        && sub.Leaf? && p == HolePar(path, View(), textBuf[r]) && (cmp < 0 <==> path.InLeft?)
        && Around(textBuf[..], F, r, path, matchLength)
    {
      ghost var text, c, s, ts := textBuf[..], textBuf[r], View(), forest;
      cmp := 1;
      p := N + 1 + textBuf[r] as int;
      matchLength := 0;
      path, sub := Top, ts[c];
      while true
        invariant ts[c] == Plug(path, sub)
        invariant p == HolePar(path, s, c) && (cmp < 0 <==> path.InLeft?)
        invariant 0 <= matchLength < F && Around(text, F, r, path, matchLength)
        invariant matchLength > 0 ==> matchPosition in Keys(ts[c]) && Common(text, F, matchPosition, r) == matchLength
        decreases sub
      {
        var child := Child(p, cmp, c, path, sub);
        if child == N {
          return;
        }
        p := child;
        var i;
        i, cmp := Compare(r, p, cmp);
        if i > matchLength {
          matchPosition := p;
          matchLength := i;
          if matchLength >= F {
            return;
          }
        }
        path, sub := StepDown(text, F, r, path, sub, matchLength, cmp >= 0);
      }
    }

    method ClearLinks(r: int)
      requires Valid() && 0 <= r < N && r !in Live()
      modifies lchild, rchild
      ensures Valid() && lchild[r] == N && rchild[r] == N && Live() == old(Live())
    {
      ghost var s := View();
      lchild[r] := N;
      rchild[r] := N;
      AbsentFrame(forest, s, View(), textBuf[..], F);
    }

    method InsertLeaf(r: int, p: int, cmp: int, ghost path: Path)
      requires Valid() && 0 <= r < N && parent[r] == N && lchild[r] == N && rchild[r] == N
      requires forest[textBuf[r]] == Plug(path, Leaf) && p == HolePar(path, View(), textBuf[r]) && (cmp < 0 <==> path.InLeft?)
      requires matchLength >= 0 && Around(textBuf[..], F, r, path, matchLength)
      modifies this`forest, lchild, rchild, parent
      ensures Valid() && forest == old(forest)[textBuf[r] := Plug(path, Node(Leaf, r, Leaf))]
      ensures Without(Traversal(textBuf[r]), r) == old(Traversal(textBuf[r]))
    {
      InsertAtBottom(forest, View(), textBuf[..], F, path, r, matchLength);
      LinkLeaf(r, p, cmp, path, textBuf[r]);
      forest := forest[textBuf[r] := Plug(path, Node(Leaf, r, Leaf))];
    }

    method InsertReplacing(r: int, p: int, ghost path: Path, ghost sub: Tree)
      requires Valid() && 0 <= r < N && parent[r] == N
      requires sub.Node? && sub.key == p && forest[textBuf[r]] == Plug(path, sub) && Common(textBuf[..], F, p, r) == F
      modifies this`forest, lchild, rchild, parent
      ensures Valid() && forest == old(forest)[textBuf[r] := Plug(path, Node(sub.left, r, sub.right))]
      ensures Without(Traversal(textBuf[r]), r) == Without(old(Traversal(textBuf[r])), p)
    {
      InsertOver(forest, View(), textBuf[..], F, path, sub, r);
      IsReplaceable(forest, View(), textBuf[..], F, textBuf[r], path, sub, r);
      Replace(p, r, path, textBuf[r]);
      forest := forest[textBuf[r] := Plug(path, Node(sub.left, r, sub.right))];
    }

    /** Adds node `r` to the tree of its first byte and finds its longest match.  On a
        full match the old node leaves the tree and `r` takes its place. */
    method InsertNode(r: int)
      requires Valid() && 0 <= r < N && r !in Live()
      modifies this, lchild, rchild, parent
      ensures Valid() && Live() == Inserted(textBuf[..], F, old(Live()), r)
      ensures LongestMatch(textBuf[..], F, old(Live()), r, matchLength, matchPosition)
      ensures forall c: Byte :: c != textBuf[r] ==> Traversal(c) == old(Traversal(c))
      ensures Without(Traversal(textBuf[r]), r)
           == if matchLength == F then Without(old(Traversal(textBuf[r])), matchPosition) else old(Traversal(textBuf[r]))
    {
      ghost var text, ts := textBuf[..], forest;
      ClearLinks(r);
      ghost var s := View();
      ghost var path, sub;
      var p, cmp;
      p, cmp, path, sub := Descend(r);
      if matchLength < F {
        Bottom(text, F, r, path, matchLength);
        TreeMatchIsLongest(forest, s, text, F, r, matchLength, matchPosition);
        InsertLeaf(r, p, cmp, path);
        RootInOrder(path, Leaf, r, Leaf);
      } else {
        TreeMatchIsLongest(forest, s, text, F, r, matchLength, matchPosition);
        InsertReplacing(r, p, path, sub);
        RootInOrder(path, sub.left, r, sub.right);
      }
      InsertedLive(ts, s, forest, View(), text, F, r, matchLength, matchPosition);
    }

    /** The rightmost node below `q`, which has a right child. */
    method Rightmost(q0: int, ghost c: Byte, ghost path: Path, ghost t0: Tree) returns (q: int, ghost p: Path, ghost t: Tree)
      requires Valid() && 0 <= q0 < N && rchild[q0] != N
      requires t0.Node? && t0.left.Node? && t0.left.key == q0
      requires forest[c] == Plug(path, t0)
      ensures Predecessor(forest, View(), c, p, t, t0.key) && t.key == q && p.InRight?
      ensures Deep(View(), path, c, t0.key, q) && parent[q] == p.key
    {
      ghost var s, text := View(), textBuf[..];
      p, t := InLeft(path, t0.key, t0.right), t0.left;
      IsNodeAt(forest, s, text, F, c, path, t0);
      IsNodeAt(forest, s, text, F, c, p, t);
      q := rchild[q0];
      p, t := InRight(p, t.left, t.key), t.right;
      IsNodeAt(forest, s, text, F, c, p, t);
      while rchild[q] != N
        invariant forest[c] == Plug(p, t) && t.Node? && t.key == q && p.InRight? && NodeAt(s, c, p, t)
        invariant Keys(t) <= Keys(t0.left) && p.key in Keys(t0.left)
        invariant After(p) != [] && After(p)[0] == t0.key
        decreases t
      {
        q := rchild[q];
        p, t := InRight(p, t.left, t.key), t.right;
        IsNodeAt(forest, s, text, F, c, p, t);
      }
      DeepHolds(s, c, path, t0, p, t);
    }

    /** Give `q` the parent link of `p`, and mark `p` absent. */
    method SpliceOut(p: int, q: int, ghost path: Path, ghost c: Byte)
      requires Shape() && 0 <= p < N && 0 <= q <= N && q != p && InRange(path, View())
      requires parent[p] == HolePar(path, View(), c) && (rchild[parent[p]] == p <==> !path.InLeft?)
      modifies lchild, rchild, parent
      ensures View() == Detach(old(View()), path, c, p, q)
    {
      ghost var s := View();
      parent[q] := parent[p];
      Redirect(parent[p], p, q, path, c);
      parent[p] := N;
      assert View().pa == Bypass(s, p, q).pa;
    }

    /** `q` takes the right child of `p`. */
    method TakeRight(p: int, q: int)
      requires Shape() && 0 <= q < N && LinksAt(View(), p) && p != q
      modifies rchild, parent
      ensures View() == RaiseChild(old(View()), p, q)
    {
      rchild[q] := rchild[p];
      parent[rchild[p]] := q;
    }

    /** Unhook `q` from its parent, then let it take both children of `p`. */
    method TakeBoth(p: int, q: int)
      requires Shape() && LinksAt(View(), p) && LinksAt(View(), q) && 0 <= parent[q] < N
      requires p != q && lchild[q] != q && lchild[p] != q && parent[q] != p
      modifies lchild, rchild, parent
      ensures View() == RaiseDeep(old(View()), p, q)
    {
      rchild[parent[q]] := lchild[q];
      parent[lchild[q]] := parent[q];
      lchild[q] := lchild[p];
      parent[lchild[p]] := q;
      TakeRight(p, q);
    }

    /** The work of `DeleteNode` on a node that is in a tree. */
    method Unlink(p: int)
      requires Valid() && 0 <= p < N && p in Live()
      modifies this`forest, lchild, rchild, parent
      ensures Valid() && parent[p] == N
      ensures exists t' :: forest == old(forest)[textBuf[p] := t'] && InOrder(t') == Without(old(Traversal(textBuf[p])), p)
    {
      ghost var path, l, r := FindPath(Top, forest[textBuf[p]], p);
      IsNodeAt(forest, View(), textBuf[..], F, textBuf[p], path, Node(l, p, r));
      ghost var t';
      var q;
      q, t' := ChooseHeir(p, path, Node(l, p, r));
      SpliceOut(p, q, path, textBuf[p]);
      forest := forest[textBuf[p] := t'];
    }

    /** Finds the node, or nil, that replaces `p`. */
    method ChooseHeir(p: int, ghost path: Path, ghost t0: Tree) returns (q: int, ghost t': Tree)
      requires Valid() && 0 <= p < N
      requires t0.Node? && t0.key == p && forest[textBuf[p]] == Plug(path, t0) && NodeAt(View(), textBuf[p], path, t0)
      modifies lchild, rchild, parent
      ensures Ready(forest, View(), textBuf[..], F, textBuf[p], path, p, q, t')
    {
      if rchild[p] == N {
        q := lchild[p];
        t' := Plug(path, t0.left);
        OneChildReady(forest, View(), textBuf[..], F, textBuf[p], path, t0, t0.left, q);
      } else if lchild[p] == N {
        q := rchild[p];
        t' := Plug(path, t0.right);
        OneChildReady(forest, View(), textBuf[..], F, textBuf[p], path, t0, t0.right, q);
      } else {
        q, t' := RaisePredecessor(p, path, t0);
      }
    }

    /** Removes node `p` from its tree, and nothing else; a node in no tree stays out. */
    method DeleteNode(p: int)
      requires Valid() && 0 <= p < N
      modifies this`forest, lchild, rchild, parent
      ensures Valid() && Live() == old(Live()) - {p}
      ensures forall c: Byte :: Traversal(c) == Without(old(Traversal(c)), p)
    {
      NotElsewhere(forest, View(), textBuf[..], F, p);
      if parent[p] == N {
        return;
      }
      ghost var ts, s := forest, View();
      Unlink(p);
      DeletedLive(ts, s, forest, View(), textBuf[..], F, p);
    }

    /** Prepares the in-order predecessor of `p` to replace it. */
    method RaisePredecessor(p: int, ghost path: Path, ghost t0: Tree) returns (q: int, ghost t': Tree)
      requires Valid() && 0 <= p < N && lchild[p] != N && rchild[p] != N
      requires t0.Node? && t0.key == p && forest[textBuf[p]] == Plug(path, t0) && NodeAt(View(), textBuf[p], path, t0)
      modifies lchild, rchild, parent
      ensures Ready(forest, View(), textBuf[..], F, textBuf[p], path, p, q, t')
    {
      q := lchild[p];
      IsNodeAt(forest, View(), textBuf[..], F, textBuf[p], InLeft(path, t0.key, t0.right), t0.left);
      if rchild[q] != N {
        q, t' := RaiseRightmost(p, q, path, t0);
      } else {
        t' := ShallowReady(forest, View(), textBuf[..], F, textBuf[p], path, t0);
        TakeRight(p, q);
      }
    }

    method RaiseRightmost(p: int, q0: int, ghost path: Path, ghost t0: Tree) returns (q: int, ghost t': Tree)
      requires Valid() && 0 <= p < N && 0 <= q0 < N && rchild[q0] != N
      requires t0.Node? && t0.key == p && t0.left.Node? && t0.left.key == q0 && forest[textBuf[p]] == Plug(path, t0)
      modifies lchild, rchild, parent
      ensures Ready(forest, View(), textBuf[..], F, textBuf[p], path, p, q, t')
    {
      ghost var p2, t;
      q, p2, t := Rightmost(q0, textBuf[p], path, t0);
      t' := DeepReady(forest, View(), textBuf[..], F, textBuf[p], path, p, p2, t);
      TakeBoth(p, q);
    }
  }
  // ---------- runs ----------

  datatype Op = Insert(r: int) | Delete(p: int)

  ghost function Applied(text: seq<Byte>, f: nat, live: set<int>, op: Op): set<int> {
    match op
    case Insert(r) => Inserted(text, f, live, r)
    case Delete(p) => live - {p}
  }

  /** The live set after a run, without any tree. */
  ghost function Replay(text: seq<Byte>, f: nat, live: set<int>, ops: seq<Op>): set<int> {
    if ops == [] then live else Applied(text, f, Replay(text, f, live, ops[..|ops| - 1]), ops[|ops| - 1])
  }

  /** Nodes are in range, and only absent nodes are inserted. */
  ghost predicate Legal(n: nat, text: seq<Byte>, f: nat, live: set<int>, ops: seq<Op>) {
    forall i :: 0 <= i < |ops| ==> LegalAt(n, text, f, live, ops, i)
  }

  ghost predicate LegalAt(n: nat, text: seq<Byte>, f: nat, live: set<int>, ops: seq<Op>, i: int) {
    && 0 <= i < |ops|
    && match ops[i]
       case Insert(r) => 0 <= r < n && r !in Replay(text, f, live, ops[..i])
       case Delete(p) => 0 <= p < n
  }

  method Apply(st: EncodeState, op: Op)
    requires st.Valid() && (op.Insert? ==> 0 <= op.r < st.N && op.r !in st.Live()) && (op.Delete? ==> 0 <= op.p < st.N)
    modifies st, st.lchild, st.rchild, st.parent
    ensures st.Valid() && st.Live() == Applied(st.textBuf[..], st.F, old(st.Live()), op)
    ensures op.Insert? ==> LongestMatch(st.textBuf[..], st.F, old(st.Live()), op.r, st.matchLength, st.matchPosition)
  {
    match op {
      case Insert(r) => st.InsertNode(r);
      case Delete(p) => st.DeleteNode(p);
    }
  }

  /** The match reported for each insertion of a run is the longest at that moment. */
  ghost predicate MatchesFound(text: seq<Byte>, f: nat, live: set<int>, ops: seq<Op>, found: seq<(int, int)>) {
    && |found| <= |ops|
    && forall i :: 0 <= i < |found| ==> FoundAt(text, f, live, ops, found, i)
  }

  ghost predicate FoundAt(text: seq<Byte>, f: nat, live: set<int>, ops: seq<Op>, found: seq<(int, int)>, i: int) {
    0 <= i < |found| <= |ops| &&
    (ops[i].Insert? ==> LongestMatch(text, f, Replay(text, f, live, ops[..i]), ops[i].r, found[i].0, found[i].1))
  }

  lemma {:induction false} ReplayStep(text: seq<Byte>, f: nat, live: set<int>, ops: seq<Op>, i: nat)
    requires i < |ops|
    ensures Replay(text, f, live, ops[..i + 1]) == Applied(text, f, Replay(text, f, live, ops[..i]), ops[i])
  {
    assert ops[..i + 1][..i] == ops[..i];
  }

  lemma {:induction false} FoundMore(text: seq<Byte>, f: nat, live: set<int>, ops: seq<Op>, found: seq<(int, int)>, len: int, pos: int)
    requires |found| < |ops| && MatchesFound(text, f, live, ops, found)
    requires ops[|found|].Insert? ==> LongestMatch(text, f, Replay(text, f, live, ops[..|found|]), ops[|found|].r, len, pos)
    ensures MatchesFound(text, f, live, ops, found + [(len, pos)])
  {
    var found' := found + [(len, pos)];
    forall i | 0 <= i < |found'| ensures FoundAt(text, f, live, ops, found', i) {
      assert i < |found| ==> FoundAt(text, f, live, ops, found, i);
    }
  }

  /** Every run keeps the forest, holds exactly the nodes the replay says, and every
      insertion reports the longest match with the nodes live at that moment. */
  method Run(st: EncodeState, ops: seq<Op>) returns (found: seq<(int, int)>)
    requires st.Valid() && Legal(st.N, st.textBuf[..], st.F, st.Live(), ops)
    modifies st, st.lchild, st.rchild, st.parent
    ensures st.Valid() && st.Live() == Replay(st.textBuf[..], st.F, old(st.Live()), ops)
    ensures |found| == |ops| && MatchesFound(st.textBuf[..], st.F, old(st.Live()), ops, found)
  {
    ghost var text, live := st.textBuf[..], st.Live();
    found := [];
    while |found| < |ops|
      invariant st.Valid() && |found| <= |ops| && st.Live() == Replay(text, st.F, live, ops[..|found|])
      invariant MatchesFound(text, st.F, live, ops, found)
    {
      ReplayStep(text, st.F, live, ops, |found|);
      assert LegalAt(st.N, text, st.F, live, ops, |found|);
      Apply(st, ops[|found|]);
      FoundMore(text, st.F, live, ops, found, st.matchLength, st.matchPosition);
      found := found + [(st.matchLength, st.matchPosition)];
    }
    assert ops[..|ops|] == ops;
  }
}
