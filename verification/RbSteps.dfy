/**
 The steps of the red-black tree of lib/rbtree.c and include/rbtree_augmented.h as values: what
 each recolouring, rotation and splice does to the nodes in memory, to the tree they spell out,
 to its in-order sequence and to the red-black rules.
 */
module RbSteps {
  import opened Lists
  import opened RbShape
  import opened RbOrder

  // ---------------------------------------------------------------- insertion as values

  /** The state of the insertion loop: the rules hold but for a red `t` below a red parent. */
  ghost predicate Climbing(h: Heap, root: Ptr, c: Context, t: Tree) {
    && Split(h, root, c, t)
    && IsRed(t) && RedBlack(t) && RedBlackContext(c, BlackHeight(t))
  }

  ghost function Linked(h: Heap, c: Context, node: Ptr): Heap {
    Hung(h[node := RbNode(0, 0, Above(c, 0), Red)], c, node)
  }

  lemma {:induction false} LinkedRep(h: Heap, root: Ptr, c: Context, node: Ptr)
    requires 0 !in h && node != 0 && IsRbTree(h, root, Fill(c, Leaf)) && node !in Ptrs(Fill(c, Leaf))
    ensures Climbing(Linked(h, c, node), HungRoot(root, c, node), c, Node(node, Red, Leaf, Leaf))
    ensures c.Up? ==> c.ptr in h && c.ptr != 0 && c.ptr != node
    ensures ContextPtrs(c) == Ptrs(Fill(c, Leaf)) && Ptrs(Node(node, Red, Leaf, Leaf)) == {node}
    ensures Whole(c, Node(node, Red, Leaf, Leaf)) == Before(c) + [node] + After(c)
  {
    hide RedBlackContext, Fill, RepContext, DistinctContext, Before, After;
    assert InOrder(Node(node, Red, Leaf, Leaf)) == [node];
    SplitRep(h, root, 0, c, Leaf);
    SplitDistinct(c, Leaf);
    SplitRedBlack(c, Leaf);
    ContextPtrAt(h, root, c, Leaf);
    var h1 := h[node := RbNode(0, 0, Above(c, 0), Red)];
    RepContextFrame(h, h1, root, 0, c, 0);
    HungRep(h1, root, 0, c, 0, node);
    assert Distinct(Node(node, Red, Leaf, Leaf)) && Ptrs(Node(node, Red, Leaf, Leaf)) == {node};
    assert node !in ContextPtrs(c);
    assert Linked(h, c, node)[node] == RbNode(0, 0, Above(c, 0), Red);
    assert Rep(Linked(h, c, node), Above(c, 0), Node(node, Red, Leaf, Leaf));
  }

  lemma {:induction false} ContextPtrAt(h: Heap, root: Ptr, c: Context, t: Tree)
    requires RepContext(h, root, 0, c, Root(t)) && DistinctContext(c)
    ensures c.Up? ==> c.ptr in h && c.ptr != 0 && c.ptr in ContextPtrs(c)
  {
  }

  lemma {:induction false} RootIsBlackened(h: Heap, root: Ptr, t: Tree, node: Ptr)
    requires 0 !in h && Climbing(h, root, Top, t) && t.ptr == node
    ensures var t' := t.(color := Black);
      IsRbTree(h[node := h[node].(parent := 0, color := Black)], root, t') && InOrder(t') == Whole(Top, t)
        && Ptrs(t') == ContextPtrs(Top) + Ptrs(t)
  {
    RepMoved(h, h[node := h[node].(parent := 0, color := Black)], 0, t, 0, Black);
  }

  /** The fields of the node a climb stands at, and of its parent. */
  lemma {:induction false} NodeAt(h: Heap, root: Ptr, c: Context, t: Tree)
    requires 0 !in h && Split(h, root, c, t) && t.Node?
    ensures t.ptr in h && h[t.ptr].parent == Above(c, 0) && h[t.ptr].color == t.color
    ensures c.Up? ==> c.ptr in h && c.ptr != 0 && h[c.ptr].color == c.color
    ensures c.Top? ==> t.ptr == root
  {
  }

  /** What the source can see from a red node with a red parent. */
  lemma {:induction false} ClimbingNode(h: Heap, root: Ptr, c: Context, t: Tree)
    requires 0 !in h && Climbing(h, root, c, t)
    ensures t.Node? && t.ptr in h && h[t.ptr].parent == Above(c, 0)
  {
  }

  lemma {:induction false} ClimbingAt(h: Heap, root: Ptr, c: Context, t: Tree)
    requires 0 !in h && Climbing(h, root, c, t) && c.Up? && c.color == Red
    ensures c.rest.Up? && c.rest.color == Black && c.ptr in h && c.rest.ptr in h
    ensures h[c.ptr] == MkCell(c.d, t.ptr, Root(c.sib), c.rest.ptr, Red)
    ensures h[c.rest.ptr] == MkCell(c.rest.d, c.ptr, Root(c.rest.sib), Above(c.rest.rest, 0), Black)
    ensures c.ptr != Root(c.rest.sib) && c.ptr != c.rest.ptr && c.ptr != t.ptr
    ensures c.rest.sib.Node? ==> Root(c.rest.sib) in h && h[Root(c.rest.sib)].color == c.rest.sib.color
    ensures RepContext(h, root, 0, c.rest.rest, c.rest.ptr) && DistinctContext(c.rest.rest)
    ensures Rep(h, c.rest.ptr, c.rest.sib) && Rep(h, c.ptr, c.sib) && Rep(h, c.ptr, t)
    ensures Distinct(c.rest.sib) && Distinct(c.sib)
    ensures Apart(c.rest.ptr, c.ptr, Ptrs(t), Ptrs(c.sib), Ptrs(c.rest.sib), ContextPtrs(c.rest.rest))
    ensures RedBlackContext(c.rest.rest, BlackHeight(t) + 1)
    ensures RedBlack(c.sib) && RedBlack(c.rest.sib) && BlackHeight(c.sib) == BlackHeight(c.rest.sib) == BlackHeight(t)
  {
    assert RepContext(h, root, 0, c.rest, c.ptr) && DistinctContext(c.rest);
    assert ContextPtrs(c) == {c.ptr} + Ptrs(c.sib) + ({c.rest.ptr} + Ptrs(c.rest.sib) + ContextPtrs(c.rest.rest));
    assert RedBlackContext(c.rest, BlackHeight(t));
    RootInPtrs(c.rest.sib);
  }

  ghost function Recolored(c: Context, t: Tree): Tree
    requires c.Up? && c.rest.Up? && c.rest.sib.Node?
  {
    Mk(c.rest.d, c.rest.ptr, Red, Mk(c.d, c.ptr, Black, t, c.sib), c.rest.sib.(color := Black))
  }

  lemma {:induction false} RecoloredRep(h: Heap, root: Ptr, c: Context, t: Tree, k: Heap)
    requires 0 !in h && Climbing(h, root, c, t) && c.Up? && c.color == Red && c.rest.Up? && IsRed(c.rest.sib)
    requires c.rest.sib.ptr in h && c.ptr in h && c.rest.ptr in h
    requires k == h[c.rest.sib.ptr := h[c.rest.sib.ptr].(parent := c.rest.ptr, color := Black)]
                   [c.ptr := h[c.ptr].(parent := c.rest.ptr, color := Black)]
                   [c.rest.ptr := h[c.rest.ptr].(parent := h[c.rest.ptr].parent, color := Red)]
    ensures Split(k, root, c.rest.rest, Recolored(c, t))
    ensures Ptrs(Recolored(c, t)) == Ptrs(t) + {c.ptr} + Ptrs(c.sib) + {c.rest.ptr} + Ptrs(c.rest.sib)
  {
    hide RedBlack, RedBlackContext, BlackHeight, RepContext, DistinctContext, ContextPtrs, Rep, Distinct, Ptrs;
    var g, u := c.rest, c.rest.sib;
    ClimbingAt(h, root, c, t);
    RootInPtrs(u);
    RepContextFrame(h, k, root, 0, g.rest, g.ptr);
    RepFrame(h, k, c.ptr, t);
    RepFrame(h, k, c.ptr, c.sib);
    var m := BlackenedRep(h, k, g.ptr, g.ptr, true, u);
    var p := Mk(c.d, c.ptr, Black, t, c.sib);
    MkIsRep(k, g.ptr, c.d, c.ptr, Black, t, c.sib);
    MkIsRep(k, Above(g.rest, 0), g.d, g.ptr, Red, p, u.(color := Black));
  }

  lemma {:induction false} RecolorUncle(h: Heap, root: Ptr, c: Context, t: Tree)
    requires 0 !in h && Climbing(h, root, c, t) && c.Up? && c.color == Red && c.rest.Up? && IsRed(c.rest.sib)
    ensures c.rest.sib.ptr in h && c.ptr in h && c.rest.ptr in h
    ensures c.rest.sib.ptr != c.ptr && c.rest.sib.ptr != c.rest.ptr && c.ptr != c.rest.ptr
    ensures var k := h[c.rest.sib.ptr := h[c.rest.sib.ptr].(parent := c.rest.ptr, color := Black)]
                      [c.ptr := h[c.ptr].(parent := c.rest.ptr, color := Black)]
                      [c.rest.ptr := h[c.rest.ptr].(parent := h[c.rest.ptr].parent, color := Red)];
      k.Keys == h.Keys && Climbing(k, root, c.rest.rest, Recolored(c, t)) && Recolored(c, t).ptr == c.rest.ptr
    ensures Whole(c.rest.rest, Recolored(c, t)) == Whole(c, t)
    ensures ContextPtrs(c.rest.rest) + Ptrs(Recolored(c, t)) == ContextPtrs(c) + Ptrs(t)
  {
    hide RepContext, DistinctContext, Rep, Distinct, InOrder, Before, After, Split, ContextPtrs, Ptrs, RedBlack,
      BlackHeight, RedBlackContext, Whole, Recolored;
    ClimbingAt(h, root, c, t);
    RootInPtrs(c.rest.sib);
    var k := h[c.rest.sib.ptr := h[c.rest.sib.ptr].(parent := c.rest.ptr, color := Black)]
              [c.ptr := h[c.ptr].(parent := c.rest.ptr, color := Black)]
              [c.rest.ptr := h[c.rest.ptr].(parent := h[c.rest.ptr].parent, color := Red)];
    RecoloredRep(h, root, c, t, k);
    RecoloredOrder(c, t);
    RecoloredRules(c, t);
  }

  lemma {:induction false} RecoloredRules(c: Context, t: Tree)
    requires c.Up? && c.rest.Up? && IsRed(c.rest.sib) && RedBlack(t)
    requires RedBlack(c.sib) && RedBlack(c.rest.sib) && BlackHeight(c.sib) == BlackHeight(c.rest.sib) == BlackHeight(t)
    ensures IsRed(Recolored(c, t)) && Recolored(c, t).ptr == c.rest.ptr && RedBlack(Recolored(c, t))
      && BlackHeight(Recolored(c, t)) == BlackHeight(t) + 1
  {
    var p, u := Mk(c.d, c.ptr, Black, t, c.sib), c.rest.sib.(color := Black);
    assert RedBlack(p) && BlackHeight(p) == BlackHeight(t) + 1;
    assert RedBlack(u) && BlackHeight(u) == BlackHeight(t) + 1;
  }

  lemma {:induction false} RecoloredOrder(c: Context, t: Tree)
    requires c.Up? && c.rest.Up? && c.rest.sib.Node?
    ensures Whole(c.rest.rest, Recolored(c, t)) == Whole(c, t)
    ensures ContextPtrs(c.rest.rest) + Ptrs(Recolored(c, t)) == ContextPtrs(c) + Ptrs(t)
  {
    hide InOrder, Ptrs, Before, After, ContextPtrs;
    assert Ptrs(c.rest.sib) == Ptrs(c.rest.sib.(color := Black))
      && InOrder(c.rest.sib) == InOrder(c.rest.sib.(color := Black)) by {
      ColorOrder(c.rest.sib, Black);
    }
    var p, q := Mk(c.d, c.ptr, c.color, t, c.sib), Mk(c.d, c.ptr, Black, t, c.sib);
    WholeUp(c, t);
    WholeUp(c.rest, p);
    MkOrder(c.d, c.ptr, c.color, Black, t, t, c.sib, c.sib);
    MkOrder(c.rest.d, c.rest.ptr, c.rest.color, Red, p, q, c.rest.sib, c.rest.sib.(color := Black));
  }

  lemma {:induction false} ColorOrder(t: Tree, c: Color)
    requires t.Node?
    ensures InOrder(t.(color := c)) == InOrder(t) && Ptrs(t.(color := c)) == Ptrs(t)
  {
  }

  /** Moving the split one node up leaves the sequence alone. */
  lemma {:induction false} WholeUp(c: Context, t: Tree)
    requires c.Up?
    ensures Whole(c, t) == Whole(c.rest, Mk(c.d, c.ptr, c.color, t, c.sib))
    ensures ContextPtrs(c) + Ptrs(t) == ContextPtrs(c.rest) + Ptrs(Mk(c.d, c.ptr, c.color, t, c.sib))
  {
    hide Before, After, InOrder, Whole;
    WholeStep(c, t);
    MkPtrs(c.d, c.ptr, c.color, t, c.sib);
  }

  /** Sequence and nodes depend on the colours of neither a node nor its subtrees. */
  lemma {:induction false} MkOrder(d: Dir, p: Ptr, c: Color, c': Color, a: Tree, a': Tree, b: Tree, b': Tree)
    requires InOrder(a) == InOrder(a') && Ptrs(a) == Ptrs(a') && InOrder(b) == InOrder(b') && Ptrs(b) == Ptrs(b')
    ensures InOrder(Mk(d, p, c, a, b)) == InOrder(Mk(d, p, c', a', b'))
      && Ptrs(Mk(d, p, c, a, b)) == Ptrs(Mk(d, p, c', a', b'))
  {
  }

  /** A red node with a red parent and a black uncle; the parent is on side `d` of `gparent`. */
  ghost predicate RedPair(h: Heap, root: Ptr, d: Dir, node: Ptr, parent: Ptr, gparent: Ptr, c: Context, t: Tree) {
    && Climbing(h, root, c, t) && t.Node? && t.ptr == node
    && c.Up? && c.color == Red && c.ptr == parent
    && c.rest.Up? && c.rest.color == Black && c.rest.ptr == gparent && c.rest.d == d
    && !IsRed(c.rest.sib)
  }

  ghost function OuterResult(d: Dir, c: Context, t: Tree): Tree
    requires c.Up? && c.rest.Up?
  {
    Rotated(d, c.rest.ptr, c.ptr, true, Red, Black, t, c.sib, c.rest.sib)
  }

  lemma {:induction false} OuterReady(h: Heap, root: Ptr, d: Dir, node: Ptr, parent: Ptr, gparent: Ptr, c: Context,
                                      t: Tree)
    requires 0 !in h && RedPair(h, root, d, node, parent, gparent, c, t) && node != Kid(h[parent], d.Flip())
    ensures c.d == d && CanRotate(h, root, d, gparent, parent, c.rest.rest, t, c.sib, c.rest.sib)
      && h[gparent].color == Black
  {
    ClimbingAt(h, root, c, t);
    RootInPtrs(c.sib);
  }

  lemma {:induction false} OuterDone(h: Heap, root: Ptr, d: Dir, node: Ptr, parent: Ptr, gparent: Ptr, c: Context,
                                     t: Tree)
    requires 0 !in h && RedPair(h, root, d, node, parent, gparent, c, t) && c.d == d
    ensures var t' := OuterResult(d, c, t);
      && RedBlack(t') && !IsRed(t') && RedBlackContext(c.rest.rest, BlackHeight(t'))
      && Whole(c.rest.rest, t') == Whole(c, t)
      && ContextPtrs(c.rest.rest) + Ptrs(t') == ContextPtrs(c) + Ptrs(t)
  {
    hide RepContext, DistinctContext, Rep, Distinct, Split, Ptrs, ContextPtrs, InOrder, Before, After;
    ClimbingAt(h, root, c, t);
    WholeUp(c, t);
    WholeUp(c.rest, Mk(d, c.ptr, c.color, t, c.sib));
    RotationOrder(d, c.rest.ptr, c.ptr, t, c.sib, c.rest.sib, Red, Black, Black, Red);
  }

  /** A rotation leaves the in-order sequence and the set of nodes alone, whatever the colours. */
  lemma {:induction false} RotationOrder(d: Dir, top: Ptr, piv: Ptr, far: Tree, mid: Tree, near: Tree,
                                         c1: Color, c2: Color, c3: Color, c4: Color)
    ensures InOrder(Mk(d, top, c2, Mk(d, piv, c1, far, mid), near))
      == InOrder(Mk(d, piv, c3, far, Mk(d, top, c4, mid, near)))
    ensures Ptrs(Mk(d, top, c2, Mk(d, piv, c1, far, mid), near)) == Ptrs(Mk(d, piv, c3, far, Mk(d, top, c4, mid, near)))
  {
    hide Ptrs;
    RotationPtrs(d, top, piv, far, mid, near, c1, c2, c3, c4);
    var a, b, c := InOrder(far), InOrder(mid), InOrder(near);
    if d == Lf {
      assert a + [piv] + b + [top] + c == a + [piv] + (b + [top] + c);
    } else {
      assert c + [top] + (b + [piv] + a) == c + [top] + b + [piv] + a;
    }
  }

  lemma {:induction false} RotationPtrs(d: Dir, top: Ptr, piv: Ptr, far: Tree, mid: Tree, near: Tree,
                                        c1: Color, c2: Color, c3: Color, c4: Color)
    ensures Ptrs(Mk(d, top, c2, Mk(d, piv, c1, far, mid), near)) == Ptrs(Mk(d, piv, c3, far, Mk(d, top, c4, mid, near)))
  {
    hide Ptrs;
    var lo, hi := Mk(d, piv, c1, far, mid), Mk(d, top, c4, mid, near);
    MkPtrs(d, piv, c1, far, mid);
    MkPtrs(d, top, c4, mid, near);
    MkPtrs(d, top, c2, lo, near);
    MkPtrs(d, piv, c3, far, hi);
  }

  lemma {:induction false} MkPtrs(d: Dir, p: Ptr, c: Color, a: Tree, b: Tree)
    ensures Ptrs(Mk(d, p, c, a, b)) == {p} + Ptrs(a) + Ptrs(b)
  {
  }

  /** The subtree on side `d`. */
  ghost function Side(t: Tree, d: Dir): Tree {
    if t.Leaf? then Leaf else if d == Lf then t.l else t.r
  }

  ghost function InnerResult(d: Dir, c: Context, t: Tree): Tree
    requires c.Up? && c.rest.Up? && t.Node?
  {
    Rotated(d, c.rest.ptr, t.ptr, true, Red, Black, Mk(d, c.ptr, Red, c.sib, Side(t, d)), Side(t, d.Flip()), c.rest.sib)
  }

  /** The links after Case 2: `node` is above `parent`, but nothing yet leads to `node`. */
  ghost function Lifted(h: Heap, d: Dir, node: Ptr, parent: Ptr): Heap
    requires node in h && parent in h && (Kid(h[node], d) != 0 ==> Kid(h[node], d) in h)
  {
    var tmp := Kid(h[node], d);
    var k := if tmp != 0 then h[tmp := h[tmp].(parent := parent, color := Black)] else h;
    k[node := WithKid(h[node], d, parent)]
     [parent := WithKid(h[parent], d.Flip(), tmp).(parent := node, color := Red)]
  }

  lemma {:induction false} InnerLifted(h: Heap, root: Ptr, d: Dir, node: Ptr, parent: Ptr, gparent: Ptr, c: Context,
                                       t: Tree)
    requires 0 !in h && RedPair(h, root, d, node, parent, gparent, c, t) && node == Kid(h[parent], d.Flip())
    ensures c.d == d.Flip() && node in h && parent in h && node != parent && gparent in h && h[gparent].color == Black
    ensures Kid(h[node], d) == Root(Side(t, d)) && (Side(t, d).Node? ==> Root(Side(t, d)) in h)
    ensures Kid(h[node], d) != node && Kid(h[node], d) != parent
    ensures var k := Lifted(h, d, node, parent);
      && k.Keys == h.Keys && k[gparent].color == Black
      && CanRotate(k, root, d, gparent, node, c.rest.rest, Mk(d, parent, Red, c.sib, Side(t, d)), Side(t, d.Flip()),
         c.rest.sib)
  {
    hide RedBlack, RedBlackContext, BlackHeight, RepContext, DistinctContext, Rep, Distinct, Split, Ptrs, ContextPtrs;
    var a, b := Side(t, d), Side(t, d.Flip());
    ClimbingAt(h, root, c, t);
    SidesAt(h, root, d, c, t);
    RootInPtrs(c.sib);
    RootInPtrs(a);
    var k := Lifted(h, d, node, parent);
    LiftedFrame(h, k, root, d, node, parent, gparent, c, t);
    MkIsRep(k, node, d, parent, Red, c.sib, a);
  }

  lemma {:induction false} LiftedFrame(h: Heap, k: Heap, root: Ptr, d: Dir, node: Ptr, parent: Ptr, gparent: Ptr,
                                       c: Context, t: Tree)
    requires 0 !in h && RedPair(h, root, d, node, parent, gparent, c, t) && c.d == d.Flip()
    requires node in h && parent in h && Kid(h[node], d) == Root(Side(t, d))
      && (Side(t, d).Node? ==> Root(Side(t, d)) in h)
    requires k == Lifted(h, d, node, parent)
    ensures RepContext(k, root, 0, c.rest.rest, gparent)
    ensures Rep(k, gparent, c.rest.sib) && Rep(k, parent, c.sib) && Rep(k, node, Side(t, d.Flip()))
      && Rep(k, parent, Side(t, d))
  {
    hide RedBlack, RedBlackContext, BlackHeight, RepContext, DistinctContext, Rep, Distinct, Split, Ptrs, ContextPtrs;
    var a, b := Side(t, d), Side(t, d.Flip());
    ClimbingAt(h, root, c, t);
    SidesAt(h, root, d, c, t);
    RootInPtrs(a);
    RepContextFrame(h, k, root, 0, c.rest.rest, gparent);
    RepFrame(h, k, gparent, c.rest.sib);
    RepFrame(h, k, parent, c.sib);
    RepFrame(h, k, node, b);
    MovedSide(h, k, node, a, parent);
  }

  /** A red node seen from side `d`. */
  lemma {:induction false} SidesAt(h: Heap, root: Ptr, d: Dir, c: Context, t: Tree)
    requires Climbing(h, root, c, t)
    ensures var a, b := Side(t, d), Side(t, d.Flip());
      && Ptrs(t) == {t.ptr} + Ptrs(a) + Ptrs(b) && Ptrs(a) !! Ptrs(b) && t.ptr !in Ptrs(a) && t.ptr !in Ptrs(b)
      && Rep(h, t.ptr, a) && Rep(h, t.ptr, b) && Distinct(a) && Distinct(b) && !IsRed(a) && !IsRed(b)
      && t.ptr in h && h[t.ptr] == MkCell(d, Root(a), Root(b), Above(c, 0), Red)
  {
  }

  lemma {:induction false} MovedSide(h: Heap, k: Heap, par: Ptr, t: Tree, par': Ptr)
    requires Rep(h, par, t) && Distinct(t) && !IsRed(t)
    requires t.Node? ==> t.ptr in h && t.ptr in k && k[t.ptr] == h[t.ptr].(parent := par', color := Black)
    requires Same(h, k, Ptrs(t) - {Root(t)})
    ensures Rep(k, par', t)
  {
    if t.Node? { RepMoved(h, k, par, t, par', Black); }
  }

  lemma {:induction false} InnerOrder(d: Dir, c: Context, t: Tree)
    requires c.Up? && c.rest.Up? && c.d == d.Flip() && c.rest.d == d && c.color == Red && c.rest.color == Black
      && IsRed(t)
    ensures Blackened(true, Side(t, d.Flip())) == Side(t, d.Flip()) ==>
      && Whole(c.rest.rest, InnerResult(d, c, t)) == Whole(c, t)
      && ContextPtrs(c.rest.rest) + Ptrs(InnerResult(d, c, t)) == ContextPtrs(c) + Ptrs(t)
  {
    hide InOrder, Ptrs, Before, After, ContextPtrs;
    var a, b := Side(t, d), Side(t, d.Flip());
    var m := Mk(d, t.ptr, Red, Mk(d, c.ptr, Red, c.sib, a), b);
    WholeUp(c, t);
    RotationOrder(d.Flip(), c.ptr, t.ptr, b, a, c.sib, Red, Red, Red, Red);
    WholeUp(c.rest, Mk(c.d, c.ptr, c.color, t, c.sib));
    MkOrder(d, c.rest.ptr, Black, Black, Mk(c.d, c.ptr, Red, t, c.sib), m, c.rest.sib, c.rest.sib);
    RotationOrder(d, c.rest.ptr, t.ptr, Mk(d, c.ptr, Red, c.sib, a), b, c.rest.sib, Red, Black, Black, Red);
  }

  lemma {:induction false} InnerDone(h: Heap, root: Ptr, d: Dir, node: Ptr, parent: Ptr, gparent: Ptr, c: Context,
                                     t: Tree)
    requires 0 !in h && RedPair(h, root, d, node, parent, gparent, c, t) && c.d == d.Flip()
    ensures var t' := InnerResult(d, c, t);
      && RedBlack(t') && !IsRed(t') && RedBlackContext(c.rest.rest, BlackHeight(t'))
      && Whole(c.rest.rest, t') == Whole(c, t)
      && ContextPtrs(c.rest.rest) + Ptrs(t') == ContextPtrs(c) + Ptrs(t)
  {
    hide RepContext, DistinctContext, Rep, Distinct, Split, Ptrs, ContextPtrs, InOrder, Before, After;
    ClimbingAt(h, root, c, t);
    InnerOrder(d, c, t);
  }

  // ---------------------------------------------------------------- taking a node out, as values

  /** A legal tree taken apart at a node. */
  ghost predicate Hole(h: Heap, root: Ptr, c: Context, s: Tree) {
    && Split(h, root, c, s) && s.Node?
    && RedBlack(s) && RedBlackContext(c, BlackHeight(s)) && (IsRed(s) ==> c.Up? && c.color == Black)
  }

  /** The node has no subtree besides `t`. */
  ghost predicate OnlySubtree(s: Tree, t: Tree) {
    s.Node? && ((s.l == Leaf && s.r == t) || (s.l == t && s.r == Leaf))
  }

  lemma {:induction false} NodeCell(h: Heap, root: Ptr, c: Context, s: Tree)
    requires 0 !in h && Split(h, root, c, s) && s.Node?
    ensures s.ptr in h && h[s.ptr] == RbNode(Root(s.l), Root(s.r), Above(c, 0), s.color)
    ensures (Root(s.l) == 0 <==> s.l.Leaf?) && (Root(s.r) == 0 <==> s.r.Leaf?)
    ensures c.Up? ==> Root(c.sib) != s.ptr && c.ptr in h && c.ptr != 0
    ensures RepContext(h, root, 0, c, s.ptr) && DistinctContext(c)
    ensures Rep(h, s.ptr, s.l) && Rep(h, s.ptr, s.r) && Distinct(s.l) && Distinct(s.r)
    ensures Ptrs(s) == {s.ptr} + Ptrs(s.l) + Ptrs(s.r) && s.ptr !in Ptrs(s.l) && s.ptr !in Ptrs(s.r)
      && Ptrs(s.l) !! Ptrs(s.r)
    ensures ContextPtrs(c) !! Ptrs(s)
  {
    if c.Up? { RootInPtrs(c.sib); }
    RootInPtrs(s.l);
    RootInPtrs(s.r);
  }

  ghost function OnlyHeap(h: Heap, c: Context, s: Tree, t: Tree): Heap
    requires t.Node? ==> t.ptr in h
  {
    var k := Hung(h, c, Root(t));
    if t.Node? then k[t.ptr := k[t.ptr].(parent := Above(c, 0), color := Black)] else k
  }

  lemma {:induction false} OnlyChild(h: Heap, root: Ptr, c: Context, s: Tree, t: Tree)
    requires 0 !in h && Hole(h, root, c, s) && OnlySubtree(s, t)
    ensures (t.Node? ==> t.ptr in h && s.color == Black) && (c.Up? ==> c.ptr in h)
    ensures var k, t' := OnlyHeap(h, c, s, t), Blackened(true, t);
      && k.Keys == h.Keys && Split(k, HungRoot(root, c, Root(t)), c, t') && RedBlack(t') && !IsRed(t')
      && (if t.Node? || s.color == Red then RedBlackContext(c, BlackHeight(t'))
         else RedBlackContext(c, BlackHeight(t') + 1))
      && (t.Leaf? && s.color == Black && c.Up? ==> Lacking(k, HungRoot(root, c, Root(t)), c, Leaf))
      && (c.Top? ==> RedBlackContext(c, BlackHeight(t')))
      && Whole(c, t') == Without(Whole(c, s), s.ptr) && ContextPtrs(c) + Ptrs(t') == ContextPtrs(c) + Ptrs(s) - {s.ptr}
  {
    hide RepContext, DistinctContext, Rep, Distinct, Ptrs, ContextPtrs, InOrder, Before, After, Whole, Without;
    NodeCell(h, root, c, s);
    RootInPtrs(t);
    OnlyRep(h, root, c, s, t);
    OnlyOrder(c, s, t);
    if t.Node? { assert RedBlack(t) && t.color == Red && BlackHeight(t) == 0; }
  }

  lemma {:induction false} OnlyOrder(c: Context, s: Tree, t: Tree)
    requires s.Node? && s.ptr !in ContextPtrs(c) && s.ptr !in Ptrs(t) && ContextPtrs(c) !! Ptrs(s)
    requires OnlySubtree(s, t)
    ensures Whole(c, Blackened(true, t)) == Without(Whole(c, s), s.ptr)
    ensures ContextPtrs(c) + Ptrs(Blackened(true, t)) == ContextPtrs(c) + Ptrs(s) - {s.ptr}
  {
    hide Before, After, Without, ContextPtrs, InOrder, Ptrs;
    if t.Node? { ColorOrder(t, Black); }
    BeforePtrs(c, s.ptr);
    InOrderPtrs(t);
    NodeOrder(s);
    EmptyTree();
    MkPtrs(Lf, s.ptr, s.color, s.l, s.r);
    var a, b, x, m := Before(c), After(c), [s.ptr], InOrder(t);
    if s.l == Leaf {
      assert a + ([] + x + m) + b == a + x + (m + b);
      WithoutAt(a, s.ptr, m + b);
      assert a + (m + b) == a + m + b;
    } else {
      assert a + (m + x + []) + b == (a + m) + x + b;
      WithoutAt(a + m, s.ptr, b);
    }
  }

  lemma {:induction false} EmptyTree()
    ensures InOrder(Leaf) == [] && Ptrs(Leaf) == {}
  {
  }

  lemma {:induction false} OnlyRep(h: Heap, root: Ptr, c: Context, s: Tree, t: Tree)
    requires 0 !in h && Split(h, root, c, s) && s.Node? && OnlySubtree(s, t)
    ensures t.Node? ==> t.ptr in h
    ensures OnlyHeap(h, c, s, t).Keys == h.Keys
    ensures Split(OnlyHeap(h, c, s, t), HungRoot(root, c, Root(t)), c, Blackened(true, t))
  {
    hide RepContext, DistinctContext, Distinct, ContextPtrs, Ptrs, Rep;
    NodeCell(h, root, c, s);
    RootInPtrs(t);
    RepInHeap(h, s.ptr, t);
    ContextPtrAt(h, root, c, s);
    var k, k' := Hung(h, c, Root(t)), OnlyHeap(h, c, s, t);
    HungRep(h, root, 0, c, s.ptr, Root(t));
    RepContextFrame(k, k', HungRoot(root, c, Root(t)), 0, c, Root(t));
    var m := BlackenedRep(h, k', s.ptr, Above(c, 0), true, t);
  }

  /** The subtree `y` is the leftmost node below the right child of `s`, at the end of the path `ci`. */
  ghost predicate LeftSpine(s: Tree, ci: Context, y: Tree) {
    s.Node? && Fill(ci, y) == s.r && Before(ci) == [] && y.Node? && y.l == Leaf
  }

  lemma {:induction false} SpineStart(s: Tree)
    requires s.Node?
    ensures Fill(Top, s.r) == s.r && Before(Top) == []
  {
  }

  lemma {:induction false} SpineStep(ci: Context, y: Tree)
    requires y.Node? && Before(ci) == []
    ensures Fill(Up(Lf, y.ptr, y.color, y.r, ci), y.l) == Fill(ci, y) && Before(Up(Lf, y.ptr, y.color, y.r, ci)) == []
  {
  }

  lemma {:induction false} SpineCell(h: Heap, s: Tree, ci: Context, y: Tree)
    requires 0 !in h && s.Node? && Rep(h, s.ptr, s.r) && Fill(ci, y) == s.r && y.Node?
    ensures y.ptr in h && h[y.ptr] == RbNode(Root(y.l), Root(y.r), Above(ci, s.ptr), y.color)
    ensures Root(y.l) == 0 <==> y.l.Leaf?
    ensures RepContext(h, Root(s.r), s.ptr, ci, y.ptr) && Rep(h, y.ptr, y.r)
  {
    SplitRep(h, Root(s.r), s.ptr, ci, y);
  }

  /** The context of the successor's right subtree once the successor stands in the node's place. */
  ghost function Respliced(c: Context, s: Tree, ci: Context, y: Tree): Context
    requires s.Node? && y.Node?
  {
    Append(ci, Up(Rt, y.ptr, s.color, s.l, c))
  }

  /** The parts the source relinks when it replaces a node by its successor. */
  ghost predicate SpliceParts(h: Heap, root: Ptr, c: Context, s: Tree, ci: Context, y: Tree) {
    && 0 !in h && s.Node? && s.l.Node? && s.r.Node? && y.Node? && y.l == Leaf && (ci.Up? ==> ci.d == Lf)
    && RepContext(h, root, 0, c, s.ptr) && DistinctContext(c)
    && Rep(h, s.ptr, s.l) && Distinct(s.l)
    && RepContext(h, s.r.ptr, s.ptr, ci, y.ptr) && DistinctContext(ci)
    && Rep(h, y.ptr, y.r) && Distinct(y.r)
    && s.ptr in h && h[s.ptr] == RbNode(s.l.ptr, s.r.ptr, Above(c, 0), s.color)
    && y.ptr in h && h[y.ptr] == RbNode(0, Root(y.r), Above(ci, s.ptr), y.color)
    && s.l.ptr in h && s.l.ptr in Ptrs(s.l)
    && (y.r.Node? ==> y.r.ptr in h && y.r.ptr in Ptrs(y.r))
    && (if ci.Up? then s.r.ptr in ContextPtrs(ci) && s.r.ptr in h && ci.ptr in ContextPtrs(ci)
       && ci.ptr in h else s.r.ptr == y.ptr)
    && (c.Up? ==> c.ptr in h && c.ptr in ContextPtrs(c) && Root(c.sib) != s.ptr)
    && Apart(s.ptr, y.ptr, Ptrs(s.l), Ptrs(y.r), ContextPtrs(ci), ContextPtrs(c)) && s.ptr != y.ptr
  }

  ghost function Spliced(h: Heap, s: Tree, ci: Context, y: Tree): Heap
    requires s.Node? && s.l.Node? && s.r.Node? && y.Node? && y.ptr in h && s.l.ptr in h
      && (ci.Up? ==> ci.ptr in h && s.r.ptr in h)
  {
    var x := y.ptr;
    var k := if ci.Up? then
               var k1 := h[ci.ptr := h[ci.ptr].(left := Root(y.r))];
               var k2 := k1[x := k1[x].(right := s.r.ptr)];
               k2[s.r.ptr := k2[s.r.ptr].(parent := x)]
             else h;
    var k3 := k[x := k[x].(left := s.l.ptr)];
    k3[s.l.ptr := k3[s.l.ptr].(parent := x)]
  }

  ghost function SplicedAll(h: Heap, c: Context, s: Tree, ci: Context, y: Tree): Heap
    requires s.Node? && s.l.Node? && s.r.Node? && y.Node? && y.ptr in h && s.l.ptr in h
      && (ci.Up? ==> ci.ptr in h && s.r.ptr in h)
    requires y.r.Node? ==> y.r.ptr in h
  {
    var x := y.ptr;
    var k := Hung(Spliced(h, s, ci, y), c, x);
    var k1 := k[x := k[x].(parent := Above(c, 0), color := s.color)];
    if y.r.Node? then k1[y.r.ptr := k1[y.r.ptr].(parent := Above(ci, x), color := Black)] else k1
  }

  lemma {:induction false} SpliceHas(h: Heap, root: Ptr, c: Context, s: Tree, ci: Context, y: Tree)
    requires 0 !in h && Split(h, root, c, s) && s.Node? && s.l.Node? && s.r.Node? && LeftSpine(s, ci, y)
    ensures SpliceParts(h, root, c, s, ci, y)
    ensures DistinctContext(ci) && Ptrs(s) == {s.ptr} + Ptrs(s.l) + (ContextPtrs(ci) + ({y.ptr} + Ptrs(y.r)))
  {
    hide RepContext, DistinctContext, Rep, Distinct, Fill, InOrder, Before, After, RedBlack, RedBlackContext,
      BlackHeight;
    NodeCell(h, root, c, s);
    SpineCell(h, s, ci, y);
    SplitDistinct(ci, y);
    SpineNode(y);
    RootInPtrs(s.l);
    RootInPtrs(y.r);
    RepInHeap(h, s.ptr, s.l);
    RepInHeap(h, y.ptr, y.r);
    RepInHeap(h, s.ptr, s.r);
    SpineSide(ci);
    ContextRoot(h, s.r.ptr, s.ptr, ci, y.ptr);
    ContextPtrAt(h, root, c, s);
  }

  lemma {:induction false} SpineNode(y: Tree)
    requires Distinct(y) && y.Node? && y.l == Leaf
    ensures Ptrs(y) == {y.ptr} + Ptrs(y.r) && y.ptr !in Ptrs(y.r) && Distinct(y.r) && y.ptr != 0
  {
  }

  lemma {:induction false} SpineSide(ci: Context)
    requires Before(ci) == []
    ensures ci.Up? ==> ci.d == Lf && Before(ci.rest) == []
  {
  }

  lemma {:induction false} ContextRoot(h: Heap, root: Ptr, out: Ptr, c: Context, hole: Ptr)
    requires RepContext(h, root, out, c, hole)
    ensures if c.Up? then root in ContextPtrs(c) && root in h && c.ptr in ContextPtrs(c) && c.ptr in h else root == hole
  {
    if c.Up? {
      ContextRoot(h, root, out, c.rest, c.ptr);
    }
  }

  lemma {:induction false} SpliceReady(h: Heap, root: Ptr, c: Context, s: Tree, ci: Context, y: Tree)
    requires 0 !in h && Split(h, root, c, s) && s.Node? && s.l.Node? && s.r.Node? && LeftSpine(s, ci, y)
    ensures SpliceParts(h, root, c, s, ci, y) && (ci.Up? ==> s.r.ptr != y.ptr)
    ensures var k := Spliced(h, s, ci, y);
      k.Keys == h.Keys && k[s.ptr] == h[s.ptr] && k[y.ptr].color == y.color && RepContext(k, root, 0, c, s.ptr)
    ensures s.l.ptr != y.ptr && s.l.ptr != s.ptr
      && (ci.Up? ==> ci.ptr != y.ptr && ci.ptr != s.ptr && s.l.ptr != ci.ptr && s.l.ptr != s.r.ptr)
    ensures y.r.Node? ==> y.r.ptr != y.ptr
  {
    hide RepContext, DistinctContext, Rep, Distinct, Fill, Ptrs, ContextPtrs, LeftSpine, Split;
    SpliceHas(h, root, c, s, ci, y);
    RepContextFrame(h, Spliced(h, s, ci, y), root, 0, c, s.ptr);
  }

  /** The whole path hangs below another node once the parent link of its topmost node says so. */
  lemma {:induction false} RepContextOut(h: Heap, k: Heap, root: Ptr, out: Ptr, out': Ptr, c: Context, hole: Ptr)
    requires RepContext(h, root, out, c, hole) && DistinctContext(c) && c.Up?
    requires root in h && root in k && k[root] == h[root].(parent := out')
    requires Same(h, k, ContextPtrs(c) - {root})
    ensures RepContext(k, root, out', c, hole)
    decreases c
  {
    ContextRoot(h, root, out, c.rest, c.ptr);
    RepFrame(h, k, c.ptr, c.sib) by {
      if c.rest.Top? { assert root == c.ptr; }
    }
    if c.rest.Up? {
      RepContextOut(h, k, root, out, out', c.rest, c.ptr);
    }
  }

  lemma {:induction false} SplicedCells(h: Heap, root: Ptr, c: Context, s: Tree, ci: Context, y: Tree, k: Heap)
    requires SpliceParts(h, root, c, s, ci, y)
    requires k == SplicedAll(h, c, s, ci, y)
    ensures k.Keys == h.Keys
    ensures k[y.ptr] == RbNode(s.l.ptr, if ci.Up? then s.r.ptr else Root(y.r), Above(c, 0), s.color)
    ensures k[s.l.ptr] == h[s.l.ptr].(parent := y.ptr) && Same(h, k, Ptrs(s.l) - {s.l.ptr})
    ensures y.r.Node? ==> k[y.r.ptr] == h[y.r.ptr].(parent := Above(ci, y.ptr), color := Black)
    ensures Same(h, k, Ptrs(y.r) - {Root(y.r)})
    ensures ci.Up? ==> var k1 := Hung(h, ci, Root(y.r));
      k[s.r.ptr] == k1[s.r.ptr].(parent := y.ptr) && Same(k1, k, ContextPtrs(ci) - {s.r.ptr})
    ensures Same(Hung(h, c, y.ptr), k, ContextPtrs(c))
  {
    hide RepContext, DistinctContext, Rep, Distinct, Ptrs, ContextPtrs;
  }

  lemma {:induction false} SplicedRep(h: Heap, root: Ptr, c: Context, s: Tree, ci: Context, y: Tree)
    requires SpliceParts(h, root, c, s, ci, y)
    ensures var k := SplicedAll(h, c, s, ci, y);
      && k.Keys == h.Keys
      && RepContext(k, HungRoot(root, c, y.ptr), 0, Respliced(c, s, ci, y), Root(y.r))
      && DistinctContext(Respliced(c, s, ci, y))
      && Rep(k, Above(ci, y.ptr), Blackened(true, y.r)) && Distinct(Blackened(true, y.r))
      && Ptrs(Blackened(true, y.r)) == Ptrs(y.r) && Root(Blackened(true, y.r)) == Root(y.r)
  {
    hide RepContext, DistinctContext, Rep, Distinct, Ptrs, ContextPtrs, Append;
    var k, x, r := SplicedAll(h, c, s, ci, y), y.ptr, HungRoot(root, c, y.ptr);
    SplicedCells(h, root, c, s, ci, y, k);
    var m := BlackenedRep(h, k, x, Above(ci, x), true, y.r);
    assert h[s.l.ptr].color == s.l.color by { RepColor(h, s.ptr, s.l); }
    var l := BlackenedRep(h, k, s.ptr, x, false, s.l);
    HungRep(h, root, 0, c, s.ptr, x);
    RepContextFrame(Hung(h, c, x), k, r, 0, c, x);
    var mid := if ci.Up? then s.r.ptr else Root(y.r);
    var outer := Up(Rt, x, s.color, s.l, c);
    OuterRep(k, r, outer, mid);
    SpineMoved(h, k, root, c, s, ci, y, mid);
    AppendRep(k, r, mid, ci, outer, Root(y.r));
  }

  lemma {:induction false} RepColor(h: Heap, par: Ptr, t: Tree)
    requires Rep(h, par, t) && t.Node?
    ensures t.ptr in h && h[t.ptr].color == t.color
  {
  }

  lemma {:induction false} OuterRep(k: Heap, root: Ptr, outer: Context, mid: Ptr)
    requires outer.Up? && outer.ptr in k && outer.ptr != 0
    requires k[outer.ptr] == MkCell(outer.d, mid, Root(outer.sib), Above(outer.rest, 0), outer.color)
    requires Rep(k, outer.ptr, outer.sib) && RepContext(k, root, 0, outer.rest, outer.ptr)
    requires Distinct(outer.sib) && DistinctContext(outer.rest)
    requires outer.ptr !in Ptrs(outer.sib) && outer.ptr !in ContextPtrs(outer.rest)
      && Ptrs(outer.sib) !! ContextPtrs(outer.rest)
    ensures RepContext(k, root, 0, outer, mid) && DistinctContext(outer)
    ensures ContextPtrs(outer) == {outer.ptr} + Ptrs(outer.sib) + ContextPtrs(outer.rest)
  {
  }

  lemma {:induction false} SpineMoved(h: Heap, k: Heap, root: Ptr, c: Context, s: Tree, ci: Context, y: Tree, mid: Ptr)
    requires SpliceParts(h, root, c, s, ci, y)
    requires mid == if ci.Up? then s.r.ptr else Root(y.r)
    requires ci.Up? ==> var k1 := Hung(h, ci, Root(y.r));
      s.r.ptr in k && k[s.r.ptr] == k1[s.r.ptr].(parent := y.ptr) && Same(k1, k, ContextPtrs(ci) - {s.r.ptr})
    ensures RepContext(k, mid, y.ptr, ci, Root(y.r))
  {
    hide DistinctContext, Rep, Distinct, Ptrs, ContextPtrs;
    if ci.Up? {
      HungRep(h, s.r.ptr, s.ptr, ci, y.ptr, Root(y.r));
      RepContextOut(Hung(h, ci, Root(y.r)), k, s.r.ptr, s.ptr, y.ptr, ci, Root(y.r));
    }
  }

  lemma {:induction false} SplicedRules(c: Context, s: Tree, ci: Context, y: Tree)
    requires LeftSpine(s, ci, y) && RedBlack(s) && RedBlackContext(c, BlackHeight(s))
      && (IsRed(s) ==> c.Up? && c.color == Black)
    ensures var c', t' := Respliced(c, s, ci, y), Blackened(true, y.r);
      && RedBlack(t') && !IsRed(t')
      && (if y.r.Node? || y.color == Red then RedBlackContext(c', BlackHeight(t'))
         else RedBlackContext(c', BlackHeight(t') + 1))
    ensures y.r.Node? ==> y.color == Black
  {
    hide Fill, Before, RedBlackContext, Append;
    var o := Up(Rt, s.ptr, s.color, s.l, c);
    FillIsRedBlack(c, s);
    AppendShape(ci, o, y);
    FillUp(o, s);
    SplitRedBlack(Append(ci, o), y);
    RenameRedBlack(ci, o, o.(ptr := y.ptr), BlackHeight(y));
  }

  lemma {:induction false} FillUp(o: Context, s: Tree)
    requires s.Node? && o.Up? && o.d == Rt && o.ptr == s.ptr && o.color == s.color && o.sib == s.l
    ensures Fill(o, s.r) == Fill(o.rest, s)
  {
  }

  lemma {:induction false} SplicedOrder(c: Context, s: Tree, ci: Context, y: Tree)
    requires LeftSpine(s, ci, y) && s.ptr !in ContextPtrs(c) && s.ptr !in Ptrs(s.l) && s.ptr != y.ptr
      && s.ptr !in Ptrs(y.r) && s.ptr !in ContextPtrs(ci)
    requires Ptrs(s) == {s.ptr} + Ptrs(s.l) + (ContextPtrs(ci) + ({y.ptr} + Ptrs(y.r)))
    ensures var c', t' := Respliced(c, s, ci, y), Blackened(true, y.r);
      Whole(c', t') == Without(Whole(c, s), s.ptr) && ContextPtrs(c') + Ptrs(t') == ContextPtrs(c) + Ptrs(s) - {s.ptr}
  {
    hide Fill, Append, Without, Ptrs, ContextPtrs, InOrder, Before, After;
    var o := Up(Rt, y.ptr, s.color, s.l, c);
    if y.r.Node? { ColorOrder(y.r, Black); }
    AppendShape(ci, o, y.r);
    OuterPtrs(o);
    SplicedWhole(c, s, ci, y);
  }

  lemma {:induction false} SplicedWhole(c: Context, s: Tree, ci: Context, y: Tree)
    requires LeftSpine(s, ci, y) && s.ptr !in ContextPtrs(c) && s.ptr !in Ptrs(s.l)
    ensures Whole(Respliced(c, s, ci, y), y.r) == Without(Whole(c, s), s.ptr)
  {
    hide Fill, Append, Without, Ptrs, ContextPtrs, InOrder, Before, After;
    var o := Up(Rt, y.ptr, s.color, s.l, c);
    FillInOrder(ci, y);
    AppendShape(ci, o, y.r);
    BeforePtrs(c, s.ptr);
    InOrderPtrs(s.l);
    SplicedSeq(s, y);
    OuterSeq(o);
    var a, l, m, b, z := Before(c), InOrder(s.l), InOrder(y.r), After(ci), After(c);
    assert InOrder(s.r) == [y.ptr] + m + b;
    assert Whole(c, s) == (a + l) + [s.ptr] + ([y.ptr] + m + b + z);
    WithoutAt(a + l, s.ptr, [y.ptr] + m + b + z);
    assert Whole(Respliced(c, s, ci, y), y.r) == (a + l + [y.ptr] + []) + m + (b + z);
  }

  lemma {:induction false} OuterSeq(o: Context)
    requires o.Up? && o.d == Rt
    ensures Before(o) == Before(o.rest) + InOrder(o.sib) + [o.ptr] && After(o) == After(o.rest)
  {
  }

  lemma {:induction false} SplicedSeq(s: Tree, y: Tree)
    requires s.Node? && y.Node? && y.l == Leaf
    ensures InOrder(s) == InOrder(s.l) + [s.ptr] + InOrder(s.r)
    ensures InOrder(y) == [y.ptr] + InOrder(y.r)
  {
  }

  lemma {:induction false} OuterPtrs(o: Context)
    requires o.Up?
    ensures ContextPtrs(o) == {o.ptr} + Ptrs(o.sib) + ContextPtrs(o.rest)
  {
  }

  lemma {:induction false} SpliceDone(h: Heap, root: Ptr, c: Context, s: Tree, ci: Context, y: Tree)
    requires 0 !in h && Hole(h, root, c, s) && s.l.Node? && s.r.Node? && LeftSpine(s, ci, y)
    ensures SpliceParts(h, root, c, s, ci, y)
    ensures var k, c', t' := SplicedAll(h, c, s, ci, y), Respliced(c, s, ci, y), Blackened(true, y.r);
      && k.Keys == h.Keys && c'.Up? && c'.ptr == Above(ci, y.ptr)
      && Split(k, HungRoot(root, c, y.ptr), c', t') && RedBlack(t') && !IsRed(t')
      && (if y.r.Node? || y.color == Red then RedBlackContext(c', BlackHeight(t'))
         else Lacking(k, HungRoot(root, c, y.ptr), c', Leaf))
      && Whole(c', t') == Without(Whole(c, s), s.ptr)
         && ContextPtrs(c') + Ptrs(t') == ContextPtrs(c) + Ptrs(s) - {s.ptr}
  {
    hide RepContext, DistinctContext, Rep, Distinct, Ptrs, ContextPtrs, InOrder, Before, After, Whole, Without,
      RedBlackContext, LeftSpine, SplicedAll;
    SpliceHas(h, root, c, s, ci, y);
    SplicedRep(h, root, c, s, ci, y);
    SplicedRules(c, s, ci, y);
    SplicedOrder(c, s, ci, y);
    var o := Up(Rt, y.ptr, s.color, s.l, c);
    AppendShape(ci, o, y.r);
    OuterPtrs(o);
  }

  // ---------------------------------------------------------------- removal as values

  /** The state of the removal loop: all rules hold but the hole is one black node short. */
  ghost predicate Lacking(h: Heap, root: Ptr, c: Context, t: Tree) {
    Split(h, root, c, t) && Short(c, t)
  }

  ghost predicate Short(c: Context, t: Tree) {
    c.Up? && !IsRed(t) && RedBlack(t) && RedBlackContext(c, BlackHeight(t) + 1)
  }

  ghost predicate ColorAt(h: Heap, t: Tree) {
    t.Node? ==> t.ptr in h && h[t.ptr].color == t.color
  }

  /** Links, distinctness and colours around a short place. */
  lemma {:induction false} LackingAt(h: Heap, root: Ptr, c: Context, t: Tree)
    requires 0 !in h && Lacking(h, root, c, t)
    ensures c.Up? && c.sib.Node? && c.ptr in h && c.sib.ptr in h && Root(t) != c.sib.ptr
    ensures h[c.ptr] == MkCell(c.d, Root(t), c.sib.ptr, Above(c.rest, 0), c.color)
    ensures var far, mid := Side(c.sib, c.d.Flip()), Side(c.sib, c.d);
      && h[c.sib.ptr] == MkCell(c.d.Flip(), Root(far), Root(mid), c.ptr, c.sib.color)
      && CanRotate(h, root, c.d.Flip(), c.ptr, c.sib.ptr, c.rest, far, mid, t)
      && ColorAt(h, far) && ColorAt(h, mid) && Root(far) != c.sib.ptr && Root(far) != c.ptr && Root(mid) != c.sib.ptr
         && Root(mid) != c.ptr
      && Kid(h[c.sib.ptr], c.d.Flip()) == Root(far) && Kid(h[c.sib.ptr], c.d) == Root(mid)
      && (Root(far) == 0 <==> far.Leaf?) && (Root(mid) == 0 <==> mid.Leaf?)
    ensures h[c.ptr].color == c.color && h[c.ptr].parent == Above(c.rest, 0) && h[c.sib.ptr].color == c.sib.color
    ensures Kid(h[c.ptr], c.d) == Root(t) && Kid(h[c.ptr], c.d.Flip()) == c.sib.ptr
  {
    hide RedBlackContext, RedBlack, InOrder, Before, After, Fill;
    var far, mid := Side(c.sib, c.d.Flip()), Side(c.sib, c.d);
    LackingRules(c, t);
    RootInPtrs(far);
    RootInPtrs(mid);
    RootInPtrs(t);
    SidePtrs(c.sib, c.d);
    LackingLinks(h, root, c, t);
  }

  lemma {:induction false} SidePtrs(t: Tree, d: Dir)
    requires t.Node? && Distinct(t)
    ensures Ptrs(t) == {t.ptr} + Ptrs(Side(t, d)) + Ptrs(Side(t, d.Flip()))
    ensures t.ptr != 0 && t.ptr !in Ptrs(Side(t, d)) && t.ptr !in Ptrs(Side(t, d.Flip()))
      && Ptrs(Side(t, d)) !! Ptrs(Side(t, d.Flip()))
    ensures Distinct(Side(t, d)) && Distinct(Side(t, d.Flip()))
  {
  }

  lemma {:induction false} LackingLinks(h: Heap, root: Ptr, c: Context, t: Tree)
    requires Split(h, root, c, t) && c.Up? && c.sib.Node?
    ensures RepContext(h, root, 0, c.rest, c.ptr) && DistinctContext(c.rest) && Distinct(c.sib)
    ensures c.ptr in h && c.sib.ptr in h && h[c.ptr] == MkCell(c.d, Root(t), c.sib.ptr, Above(c.rest, 0), c.color)
    ensures Rep(h, c.ptr, t) && Distinct(t) && Rep(h, c.ptr, c.sib)
    ensures c.ptr !in Ptrs(c.sib) && c.ptr !in Ptrs(t) && c.ptr !in ContextPtrs(c.rest) && Ptrs(c.sib) !! Ptrs(t)
    ensures ContextPtrs(c.rest) !! Ptrs(c.sib) && ContextPtrs(c.rest) !! Ptrs(t)
  {
  }

  lemma {:induction false} LackingRules(c: Context, t: Tree)
    requires Short(c, t)
    ensures c.sib.Node? && RedBlack(c.sib)
    ensures var far, mid := Side(c.sib, c.d.Flip()), Side(c.sib, c.d);
      && RedBlack(far) && RedBlack(mid)
         && BlackHeight(far) == BlackHeight(mid) == BlackHeight(t) + 1 - Weight(c.sib.color)
      && (c.sib.color == Red ==> !IsRed(far) && !IsRed(mid) && mid.Node? && c.color == Black)
      && BlackHeight(c.sib) == BlackHeight(t) + 1
    ensures c.color == Red ==> c.rest.Up? && c.rest.color == Black
    ensures RedBlackContext(c.rest, BlackHeight(t) + 1 + Weight(c.color))
  {
  }

  /** The context after Case 1: the red sibling has become the grandparent of the place. */
  ghost function Raised(c: Context): Context
    requires c.Up? && c.sib.Node?
  {
    Up(c.d, c.ptr, Red, Side(c.sib, c.d), Up(c.d, c.sib.ptr, Black, Side(c.sib, c.d.Flip()), c.rest))
  }

  lemma {:induction false} RedSibling(h: Heap, root: Ptr, c: Context, t: Tree)
    requires 0 !in h && Lacking(h, root, c, t) && c.sib.Node? && c.sib.color == Red
    ensures c.color == Black && Short(c, t)
  {
    LackingRules(c, t);
  }

  /** A subtree of the filled hole becomes the hole. */
  lemma {:induction false} SplitDown(h: Heap, root: Ptr, c: Context, d: Dir, p: Ptr, col: Color, a: Tree, b: Tree)
    requires Split(h, root, c, Mk(d, p, col, a, b))
    ensures Split(h, root, Up(d, p, col, b, c), a)
  {
    MkPtrs(d, p, col, a, b);
  }

  lemma {:induction false} RedSiblingDone(k: Heap, root: Ptr, c: Context, t: Tree)
    requires Short(c, t) && c.sib.Node? && c.sib.color == Red
    requires Split(k, root, c.rest,
                   Rotated(c.d.Flip(), c.ptr, c.sib.ptr, true, Red, Black, Side(c.sib, c.d.Flip()), Side(c.sib, c.d),
                     t))
    ensures Lacking(k, root, Raised(c), t)
    ensures Raised(c).sib.Node? && Raised(c).sib == Side(c.sib, c.d) && Raised(c).sib.color == Black
    ensures Whole(Raised(c), t) == Whole(c, t) && ContextPtrs(Raised(c)) + Ptrs(t) == ContextPtrs(c) + Ptrs(t)
  {
    hide RepContext, DistinctContext, Rep, Distinct, InOrder, Before, After, Ptrs, ContextPtrs, RedBlack, Split,
      BlackHeight, Whole;
    var d, e, far, mid := c.d, c.d.Flip(), Side(c.sib, c.d.Flip()), Side(c.sib, c.d);
    LackingRules(c, t);
    var low := Mk(d, c.ptr, Red, t, mid);
    SplitDown(k, root, c.rest, d, c.sib.ptr, Black, low, far);
    SplitDown(k, root, Raised(c).rest, d, c.ptr, Red, t, mid);
    WholeUp(c, t);
    RotationOrder(e, c.ptr, c.sib.ptr, far, mid, t, Red, Black, Black, Red);
    WholeUp(Raised(c), t);
    WholeUp(Raised(c).rest, low);
    WholeSame(c.rest, Mk(d, c.ptr, c.color, t, c.sib), Mk(d, c.sib.ptr, Black, low, far));
    assert Split(k, root, Raised(c), t);
    assert RedBlackContext(c.rest, BlackHeight(t) + 2);
    assert RedBlackContext(Raised(c).rest, BlackHeight(t) + 1);
    assert RedBlackContext(Raised(c), BlackHeight(t) + 1);
  }

  ghost function Flipped(c: Context, t: Tree): Tree
    requires c.Up? && c.sib.Node?
  {
    Mk(c.d, c.ptr, Black, t, c.sib.(color := Red))
  }

  ghost function FlippedHeap(h: Heap, c: Context): Heap
    requires c.Up? && c.sib.Node? && c.ptr in h && c.sib.ptr in h
  {
    var k := h[c.sib.ptr := h[c.sib.ptr].(parent := c.ptr, color := Red)];
    if c.color == Red then k[c.ptr := h[c.ptr].(color := Black)] else k
  }

  lemma {:induction false} FlippedRules(c: Context, t: Tree)
    requires Short(c, t) && c.sib.Node? && c.sib.color == Black && !IsRed(c.sib.l) && !IsRed(c.sib.r)
    ensures var t' := Flipped(c, t);
      && RedBlack(t') && !IsRed(t') && Root(t') == c.ptr && t'.Node?
      && BlackHeight(t') == BlackHeight(t) + 1
      && (if c.color == Red || c.rest.Top? then RedBlackContext(c.rest, BlackHeight(t')) else Short(c.rest, t'))
  {
    LackingRules(c, t);
    var s := c.sib.(color := Red);
    assert RedBlack(s) && BlackHeight(s) == BlackHeight(t);
  }

  lemma {:induction false} FlippedOrder(c: Context, t: Tree)
    requires c.Up? && c.sib.Node?
    ensures Whole(c.rest, Flipped(c, t)) == Whole(c, t)
      && ContextPtrs(c.rest) + Ptrs(Flipped(c, t)) == ContextPtrs(c) + Ptrs(t)
  {
    hide InOrder, Ptrs, Before, After, ContextPtrs;
    ColorOrder(c.sib, Red);
    WholeUp(c, t);
    MkOrder(c.d, c.ptr, c.color, Black, t, t, c.sib, c.sib.(color := Red));
  }

  lemma {:induction false} FlipSibling(h: Heap, root: Ptr, c: Context, t: Tree)
    requires 0 !in h && Lacking(h, root, c, t) && c.sib.Node? && c.sib.color == Black && !IsRed(c.sib.l)
      && !IsRed(c.sib.r)
    ensures c.ptr in h && c.sib.ptr in h && c.ptr != c.sib.ptr
    ensures var k, t' := FlippedHeap(h, c), Flipped(c, t);
      && k.Keys == h.Keys && Split(k, root, c.rest, t') && RedBlack(t') && !IsRed(t') && Root(t') == c.ptr
      && (if c.color == Red || c.rest.Top? then RedBlackContext(c.rest, BlackHeight(t'))
         else Lacking(k, root, c.rest, t'))
      && Whole(c.rest, t') == Whole(c, t) && ContextPtrs(c.rest) + Ptrs(t') == ContextPtrs(c) + Ptrs(t)
    ensures c.rest.Up? ==> c.rest.ptr != 0
  {
    hide RepContext, DistinctContext, Rep, Distinct, InOrder, Before, After, Ptrs, ContextPtrs, RedBlack,
      RedBlackContext, BlackHeight, Whole, Flipped, Apart;
    LackingAt(h, root, c, t);
    FlippedRules(c, t);
    FlippedOrder(c, t);
    FlippedRep(h, root, c, t);
    ContextPtrAt(h, root, c.rest, Mk(c.d, c.ptr, Red, t, t));
  }

  lemma {:induction false} FlippedRep(h: Heap, root: Ptr, c: Context, t: Tree)
    requires 0 !in h && Split(h, root, c, t) && c.Up? && c.sib.Node? && c.ptr in h && c.sib.ptr in h
    ensures Split(FlippedHeap(h, c), root, c.rest, Flipped(c, t))
  {
    hide RepContext, DistinctContext, InOrder, Before, After, ContextPtrs, Rep, Distinct, Ptrs;
    LackingLinks(h, root, c, t);
    RootInPtrs(c.sib);
    var k := FlippedHeap(h, c);
    RepContextFrame(h, k, root, 0, c.rest, c.ptr);
    RepFrame(h, k, c.ptr, t);
    RecolorRep(h, k, c.ptr, c.sib, Red);
    MkIsRep(k, Above(c.rest, 0), c.d, c.ptr, Black, t, c.sib.(color := Red));
  }

  lemma {:induction false} RecolorRep(h: Heap, k: Heap, par: Ptr, t: Tree, col: Color)
    requires t.Node? && Rep(h, par, t) && Distinct(t) && t.ptr in k && t.ptr in h
      && k[t.ptr] == h[t.ptr].(parent := par, color := col)
    requires Same(h, k, Ptrs(t) - {t.ptr})
    ensures Rep(k, par, t.(color := col)) && Distinct(t.(color := col)) && Ptrs(t.(color := col)) == Ptrs(t)
  {
    RepMoved(h, k, par, t, par, col);
  }

  ghost function OuterNephewResult(c: Context, t: Tree): Tree
    requires c.Up? && c.sib.Node?
  {
    Rotated(c.d.Flip(), c.ptr, c.sib.ptr, false, Black, c.color, Blackened(true, Side(c.sib, c.d.Flip())),
      Side(c.sib, c.d), t)
  }

  lemma {:induction false} OuterNephew(h: Heap, root: Ptr, c: Context, t: Tree)
    requires 0 !in h && Lacking(h, root, c, t) && c.sib.Node? && c.sib.color == Black && IsRed(Side(c.sib, c.d.Flip()))
    ensures var far, mid := Side(c.sib, c.d.Flip()), Side(c.sib, c.d);
      && far.ptr in h && far.ptr != c.ptr && c.ptr in h && h[c.ptr].color == c.color
      && CanRotate(h[far.ptr := h[far.ptr].(parent := c.sib.ptr, color := Black)], root, c.d.Flip(), c.ptr, c.sib.ptr,
         c.rest, Blackened(true, far), mid, t)
    ensures Finished(c, t, OuterNephewResult(c, t))
  {
    hide RepContext, DistinctContext, Rep, Distinct, InOrder, Before, After, Ptrs, ContextPtrs, RedBlack,
      RedBlackContext, BlackHeight, Whole, Fill, Rotated, Split;
    var far, mid := Side(c.sib, c.d.Flip()), Side(c.sib, c.d);
    LackingAt(h, root, c, t);
    RootInPtrs(far);
    var k := h[far.ptr := h[far.ptr].(parent := c.sib.ptr, color := Black)];
    RepContextFrame(h, k, root, 0, c.rest, c.ptr);
    RepFrame(h, k, c.sib.ptr, mid);
    RepFrame(h, k, c.ptr, t);
    var m := BlackenedRep(h, k, c.sib.ptr, c.sib.ptr, true, far);
    OuterNephewDone(c, t);
  }

  /** The hole is filled by a tree that obeys the rules and has the same nodes in the same order. */
  ghost predicate Finished(c: Context, t: Tree, t': Tree) {
    && c.Up? && RedBlack(t') && RedBlackContext(c.rest, BlackHeight(t'))
       && (IsRed(t') ==> c.rest.Up? && c.rest.color == Black)
    && Whole(c.rest, t') == Whole(c, t) && ContextPtrs(c.rest) + Ptrs(t') == ContextPtrs(c) + Ptrs(t)
  }

  lemma {:induction false} OuterNephewDone(c: Context, t: Tree)
    requires Short(c, t) && c.sib.Node? && c.sib.color == Black && IsRed(Side(c.sib, c.d.Flip()))
    ensures Finished(c, t, OuterNephewResult(c, t))
  {
    hide InOrder, Before, After, Ptrs, ContextPtrs, RedBlackContext, Fill, Whole;
    var far, mid := Side(c.sib, c.d.Flip()), Side(c.sib, c.d);
    LackingRules(c, t);
    ColorOrder(far, Black);
    WholeUp(c, t);
    RotationOrder(c.d.Flip(), c.ptr, c.sib.ptr, far, mid, t, Black, c.color, c.color, Black);
    var low := Mk(c.d.Flip(), c.ptr, Black, mid, t);
    MkOrder(c.d.Flip(), c.sib.ptr, c.color, c.color, far, far.(color := Black), low, low);
    WholeSame(c.rest, Mk(c.d, c.ptr, c.color, t, c.sib), OuterNephewResult(c, t));
    var t' := OuterNephewResult(c, t);
    assert RedBlack(far.(color := Black));
    assert RedBlack(t');
    assert BlackHeight(t') == BlackHeight(t) + 1 + Weight(c.color);
    assert RedBlackContext(c.rest, BlackHeight(t'));
    assert Whole(c.rest, t') == Whole(c, t) && ContextPtrs(c.rest) + Ptrs(t') == ContextPtrs(c) + Ptrs(t);
    assert IsRed(t') ==> c.rest.Up? && c.rest.color == Black;
  }

  lemma {:induction false} WholeSame(c: Context, t: Tree, t': Tree)
    requires InOrder(t) == InOrder(t') && Ptrs(t) == Ptrs(t')
    ensures Whole(c, t) == Whole(c, t') && ContextPtrs(c) + Ptrs(t) == ContextPtrs(c) + Ptrs(t')
  {
  }

  ghost function InnerNephewResult(c: Context, t: Tree): Tree
    requires c.Up? && c.sib.Node? && Side(c.sib, c.d).Node?
  {
    var far, mid := Side(c.sib, c.d.Flip()), Side(c.sib, c.d);
    Rotated(c.d.Flip(), c.ptr, mid.ptr, false, Black, c.color,
            Mk(c.d.Flip(), c.sib.ptr, Black, far, Side(mid, c.d.Flip())), Side(mid, c.d), t)
  }

  ghost function NephewLifted(h: Heap, d: Dir, parent: Ptr, sibling: Ptr, tmp2: Ptr): Heap
    requires parent in h && sibling in h && tmp2 in h && (Kid(h[tmp2], d.Flip()) != 0 ==> Kid(h[tmp2], d.Flip()) in h)
  {
    var tmp1 := Kid(h[tmp2], d.Flip());
    var k := if tmp1 != 0 then h[tmp1 := h[tmp1].(parent := sibling, color := Black)] else h;
    k[sibling := WithKid(h[sibling], d, tmp1).(parent := tmp2, color := Black)]
     [tmp2 := WithKid(h[tmp2], d.Flip(), sibling)]
     [parent := WithKid(h[parent], d.Flip(), tmp2)]
  }

  lemma {:induction false} InnerNephewDone(c: Context, t: Tree)
    requires Short(c, t) && c.sib.Node? && c.sib.color == Black && IsRed(Side(c.sib, c.d))
      && !IsRed(Side(c.sib, c.d.Flip()))
    ensures Finished(c, t, InnerNephewResult(c, t))
  {
    hide InOrder, Before, After, Ptrs, ContextPtrs, RedBlackContext, Fill, Whole;
    var d, e := c.d, c.d.Flip();
    var far, mid := Side(c.sib, e), Side(c.sib, d);
    var x, y := Side(mid, e), Side(mid, d);
    LackingRules(c, t);
    WholeUp(c, t);
    RotationOrder(d, c.sib.ptr, mid.ptr, y, x, far, Red, Black, Black, Black);
    var z := Mk(e, c.sib.ptr, Black, far, x);
    MkOrder(d, c.ptr, c.color, c.color, t, t, c.sib, Mk(e, mid.ptr, Black, z, y));
    RotationOrder(e, c.ptr, mid.ptr, z, y, t, Black, c.color, c.color, Black);
    WholeSame(c.rest, Mk(c.d, c.ptr, c.color, t, c.sib), InnerNephewResult(c, t));
    var t' := InnerNephewResult(c, t);
    assert RedBlack(z) && BlackHeight(z) == BlackHeight(t) + 1;
    assert RedBlack(t');
    assert BlackHeight(t') == BlackHeight(t) + 1 + Weight(c.color);
    assert RedBlackContext(c.rest, BlackHeight(t'));
    assert IsRed(t') ==> c.rest.Up? && c.rest.color == Black;
  }

  lemma {:induction false} InnerNephew(h: Heap, root: Ptr, c: Context, t: Tree)
    requires 0 !in h && Lacking(h, root, c, t) && c.sib.Node? && c.sib.color == Black
    requires IsRed(Side(c.sib, c.d)) && !IsRed(Side(c.sib, c.d.Flip()))
    ensures var d, e, far, mid := c.d, c.d.Flip(), Side(c.sib, c.d.Flip()), Side(c.sib, c.d);
      && c.ptr in h && c.sib.ptr in h && mid.ptr in h && c.ptr != mid.ptr && c.sib.ptr != mid.ptr && c.ptr != c.sib.ptr
      && (var x := Kid(h[mid.ptr], e); x != c.ptr && x != c.sib.ptr && x != mid.ptr && (x != 0 ==> x in h))
      && (var k := NephewLifted(h, d, c.ptr, c.sib.ptr, mid.ptr);
          && k.Keys == h.Keys && k[c.ptr].color == c.color
          && CanRotate(k, root, e, c.ptr, mid.ptr, c.rest, Mk(e, c.sib.ptr, Black, far, Side(mid, e)), Side(mid, d), t))
    ensures Finished(c, t, InnerNephewResult(c, t))
  {
    hide RepContext, DistinctContext, Rep, Distinct, InOrder, Before, After, Ptrs, ContextPtrs, RedBlack,
      RedBlackContext, BlackHeight, Whole, Fill, Rotated, Split, Finished;
    var d, e, far, mid := c.d, c.d.Flip(), Side(c.sib, c.d.Flip()), Side(c.sib, c.d);
    LackingAt(h, root, c, t);
    InnerNephewDone(c, t);
    LackingRules(c, t);
    RedSides(h, c.sib.ptr, mid, d);
    var x, y := Side(mid, e), Side(mid, d);
    RootInPtrs(x);
    RootInPtrs(far);
    var k := NephewLifted(h, d, c.ptr, c.sib.ptr, mid.ptr);
    NephewFrame(h, k, root, c, t, far, mid, x, y);
    MkIsRep(k, mid.ptr, e, c.sib.ptr, Black, far, x);
  }

  lemma {:induction false} RedSides(h: Heap, par: Ptr, t: Tree, d: Dir)
    requires IsRed(t) && Distinct(t) && Rep(h, par, t) && RedBlack(t)
    ensures var a, b := Side(t, d.Flip()), Side(t, d);
      && Ptrs(t) == {t.ptr} + Ptrs(a) + Ptrs(b) && Ptrs(a) !! Ptrs(b) && t.ptr !in Ptrs(a) && t.ptr !in Ptrs(b)
      && Rep(h, t.ptr, a) && Rep(h, t.ptr, b) && Distinct(a) && Distinct(b) && !IsRed(a) && !IsRed(b)
      && t.ptr in h && h[t.ptr] == MkCell(d.Flip(), Root(a), Root(b), par, Red)
  {
  }

  lemma {:induction false} NephewFrame(h: Heap, k: Heap, root: Ptr, c: Context, t: Tree, far: Tree, mid: Tree,
                                       x: Tree, y: Tree)
    requires 0 !in h && c.Up? && c.sib.Node? && mid.Node? && mid.ptr in h
    requires CanRotate(h, root, c.d.Flip(), c.ptr, c.sib.ptr, c.rest, far, mid, t)
    requires Ptrs(mid) == {mid.ptr} + Ptrs(x) + Ptrs(y) && Ptrs(x) !! Ptrs(y) && mid.ptr !in Ptrs(x)
      && mid.ptr !in Ptrs(y)
    requires Rep(h, mid.ptr, x) && Rep(h, mid.ptr, y) && Distinct(x) && !IsRed(x)
    requires Kid(h[mid.ptr], c.d.Flip()) == Root(x) && (x.Node? ==> x.ptr in h && x.ptr in Ptrs(x))
    requires k == NephewLifted(h, c.d, c.ptr, c.sib.ptr, mid.ptr)
    ensures RepContext(k, root, 0, c.rest, c.ptr)
    ensures Rep(k, c.ptr, t) && Rep(k, c.sib.ptr, far) && Rep(k, mid.ptr, y) && Rep(k, c.sib.ptr, x)
  {
    hide RepContext, DistinctContext, Rep, Distinct, Ptrs, ContextPtrs;
    RepContextFrame(h, k, root, 0, c.rest, c.ptr);
    RepFrame(h, k, c.ptr, t);
    RepFrame(h, k, c.sib.ptr, far);
    RepFrame(h, k, mid.ptr, y);
    MovedSide(h, k, mid.ptr, x, c.sib.ptr);
  }

  // ---------------------------------------------------------------- rotations as values

  /** The link on side `c.d` of the hole's parent replaced by `p`. */
  ghost function Hung(h: Heap, c: Context, p: Ptr): Heap {
    if c.Up? && c.ptr in h then h[c.ptr := WithKid(h[c.ptr], c.d, p)] else h
  }

  ghost function HungRoot(root: Ptr, c: Context, p: Ptr): Ptr {
    if c.Up? then root else p
  }

  lemma {:induction false} HungRep(h: Heap, root: Ptr, out: Ptr, c: Context, hole: Ptr, p: Ptr)
    requires RepContext(h, root, out, c, hole) && DistinctContext(c)
    ensures RepContext(Hung(h, c, p), HungRoot(root, c, p), out, c, p)
  {
    if c.Up? {
      RepFrame(h, Hung(h, c, p), c.ptr, c.sib);
      RepContextFrame(h, Hung(h, c, p), root, out, c.rest, c.ptr);
    }
  }

  ghost predicate CanRotate(h: Heap, root: Ptr, d: Dir, top: Ptr, piv: Ptr, c: Context, far: Tree, mid: Tree,
                            near: Tree) {
    && 0 !in h && top != piv && top in h && piv in h
    && RepContext(h, root, 0, c, top) && DistinctContext(c)
    && h[top] == MkCell(d, Kid(h[top], d), Root(near), Above(c, 0), h[top].color)
    && h[piv] == MkCell(d, Root(far), Root(mid), h[piv].parent, h[piv].color)
    && Rep(h, piv, far) && Rep(h, piv, mid) && Rep(h, top, near)
    && Distinct(far) && Distinct(mid) && Distinct(near)
    && Apart(top, piv, Ptrs(far), Ptrs(mid), Ptrs(near), ContextPtrs(c))
  }

  /** The links and colours a rotation changes below the parent of `top`. */
  ghost function Relinked(h: Heap, d: Dir, top: Ptr, piv: Ptr, blacken: bool, color: Color): Heap
    requires top in h && piv in h && (var tmp := Kid(h[piv], d.Flip()); tmp != 0 ==> tmp in h)
  {
    var tmp := Kid(h[piv], d.Flip());
    var k := if tmp != 0 then h[tmp := h[tmp].(parent := top, color := if blacken then Black else h[tmp].color)] else h;
    k[top := WithKid(h[top], d, tmp).(parent := piv, color := color)]
     [piv := WithKid(h[piv], d.Flip(), top).(parent := h[top].parent, color := h[top].color)]
  }

  lemma {:induction false} RelinkKeepsContext(h: Heap, root: Ptr, d: Dir, top: Ptr, piv: Ptr, blacken: bool,
                                              color: Color,
                           c: Context, far: Tree, mid: Tree, near: Tree)
    requires CanRotate(h, root, d, top, piv, c, far, mid, near)
    ensures mid.Node? ==> Root(mid) in h && Root(mid) in Ptrs(mid)
    ensures Kid(h[piv], d.Flip()) == Root(mid)
    ensures RepContext(Relinked(h, d, top, piv, blacken, color), root, 0, c, top)
    ensures c.Up? ==> Root(c.sib) != top
  {
    RootInPtrs(mid);
    if c.Up? { RootInPtrs(c.sib); }
    RepContextFrame(h, Relinked(h, d, top, piv, blacken, color), root, 0, c, top);
  }

  lemma {:induction false} RotatedCells(h: Heap, root: Ptr, d: Dir, top: Ptr, piv: Ptr, blacken: bool, color: Color,
                   c: Context, far: Tree, mid: Tree, near: Tree, k: Heap)
    requires CanRotate(h, root, d, top, piv, c, far, mid, near)
    requires Kid(h[piv], d.Flip()) == Root(mid) && (mid.Node? ==> Root(mid) in h && Root(mid) in Ptrs(mid))
    requires k == Hung(Relinked(h, d, top, piv, blacken, color), c, piv)
    ensures k.Keys == h.Keys
    ensures k[top] == MkCell(d, Root(mid), Root(near), piv, color)
    ensures k[piv] == MkCell(d, Root(far), top, Above(c, 0), h[top].color)
    ensures mid.Node? ==>
      k[Root(mid)]
        == h[Root(mid)].(parent := top, color := if blacken then Black else h[Root(mid)].color)
    ensures Same(h, k, Ptrs(far)) && Same(h, k, Ptrs(near)) && Same(h, k, Ptrs(mid) - {Root(mid)})
  {
    if c.Up? { assert c.ptr in ContextPtrs(c); }
  }

  lemma {:induction false} RotatedRep(h: Heap, root: Ptr, d: Dir, top: Ptr, piv: Ptr, blacken: bool, color: Color,
                   c: Context, far: Tree, mid: Tree, near: Tree)
    requires CanRotate(h, root, d, top, piv, c, far, mid, near)
    requires Kid(h[piv], d.Flip()) == Root(mid) && (mid.Node? ==> Root(mid) in h)
    ensures var k := Hung(Relinked(h, d, top, piv, blacken, color), c, piv);
      && k.Keys == h.Keys
      && Split(k, HungRoot(root, c, piv), c, Rotated(d, top, piv, blacken, color, h[top].color, far, mid, near))
  {
    RelinkKeepsContext(h, root, d, top, piv, blacken, color, c, far, mid, near);
    var k1 := Relinked(h, d, top, piv, blacken, color);
    var k := Hung(k1, c, piv);
    HungRep(k1, root, 0, c, top, piv);
    RotatedCells(h, root, d, top, piv, blacken, color, c, far, mid, near, k);
    RotatedParts(h, k, d, top, piv, blacken, color, c, far, mid, near);
  }

  lemma {:induction false} RotatedParts(h: Heap, k: Heap, d: Dir, top: Ptr, piv: Ptr, blacken: bool, color: Color,
                   c: Context, far: Tree, mid: Tree, near: Tree)
    requires 0 !in h && top != piv && top in h && piv in h && k.Keys == h.Keys
    requires Rep(h, piv, far) && Rep(h, piv, mid) && Rep(h, top, near)
    requires Distinct(far) && Distinct(mid) && Distinct(near)
    requires Apart(top, piv, Ptrs(far), Ptrs(mid), Ptrs(near), ContextPtrs(c))
    requires k[top] == MkCell(d, Root(mid), Root(near), piv, color)
    requires k[piv] == MkCell(d, Root(far), top, Above(c, 0), h[top].color)
    requires mid.Node? ==>
      && Root(mid) in h
      && k[Root(mid)] == h[Root(mid)].(parent := top, color := if blacken then Black else h[Root(mid)].color)
    requires Same(h, k, Ptrs(far)) && Same(h, k, Ptrs(near)) && Same(h, k, Ptrs(mid) - {Root(mid)})
    ensures var t := Rotated(d, top, piv, blacken, color, h[top].color, far, mid, near);
      Rep(k, Above(c, 0), t) && Distinct(t) && Root(t) == piv && ContextPtrs(c) !! Ptrs(t)
  {
    RepFrame(h, k, piv, far);
    RepFrame(h, k, top, near);
    var m := BlackenedRep(h, k, piv, top, blacken, mid);
    RotatedShape(k, Above(c, 0), d, top, piv, color, h[top].color, far, m, near, ContextPtrs(c));
  }

  lemma {:induction false} RotatedShape(k: Heap, par: Ptr, d: Dir, top: Ptr, piv: Ptr, color: Color, topColor: Color,
                     far: Tree, m: Tree, near: Tree, o: set<Ptr>)
    requires 0 !in k && top != piv && top in k && piv in k
    requires Rep(k, piv, far) && Rep(k, top, m) && Rep(k, top, near)
    requires Distinct(far) && Distinct(m) && Distinct(near)
    requires Apart(top, piv, Ptrs(far), Ptrs(m), Ptrs(near), o)
    requires k[top] == MkCell(d, Root(m), Root(near), piv, color)
    requires k[piv] == MkCell(d, Root(far), top, par, topColor)
    ensures var t := Mk(d, piv, topColor, far, Mk(d, top, color, m, near));
      Rep(k, par, t) && Distinct(t) && Root(t) == piv && o !! Ptrs(t)
  {
    MkIsRep(k, piv, d, top, color, m, near);
    MkIsRep(k, par, d, piv, topColor, far, Mk(d, top, color, m, near));
  }

  ghost function Blackened(blacken: bool, t: Tree): Tree {
    if blacken && t.Node? then t.(color := Black) else t
  }

  lemma {:induction false} BlackenedRep(h: Heap, k: Heap, par: Ptr, par': Ptr, blacken: bool, t: Tree) returns (m: Tree)
    requires Rep(h, par, t) && Distinct(t)
    requires t.Node? ==>
      && t.ptr in k
      && k[t.ptr] == h[t.ptr].(parent := par', color := if blacken then Black else t.color)
    requires Same(h, k, Ptrs(t) - {Root(t)})
    ensures m == Blackened(blacken, t)
    ensures Rep(k, par', m) && Distinct(m) && Ptrs(m) == Ptrs(t) && Root(m) == Root(t)
  {
    m := Blackened(blacken, t);
    if t.Node? {
      RepMoved(h, k, par, t, par', if blacken then Black else t.color);
    }
  }

  /** The parts of a rotation share no node. */
  ghost predicate Apart(top: Ptr, piv: Ptr, a: set<Ptr>, b: set<Ptr>, c: set<Ptr>, o: set<Ptr>) {
    && top !in a && top !in b && top !in c && top !in o
    && piv !in a && piv !in b && piv !in c && piv !in o
    && a !! b && a !! c && b !! c && a !! o && b !! o && c !! o
  }

  ghost function Rotated(d: Dir, top: Ptr, piv: Ptr, blacken: bool, color: Color, topColor: Color,
                         far: Tree, mid: Tree, near: Tree): Tree {
    Mk(d, piv, topColor, far, Mk(d, top, color, Blackened(blacken, mid), near))
  }

  // ---------------------------------------------------------------- walking as values

  /** `RB_CLEAR_NODE` makes a node its own red parent. */
  ghost predicate IsCleared(h: Heap, node: Ptr)
    requires node in h
  {
    h[node].parent == node && h[node].color == Red
  }

  lemma {:induction false} NotCleared(h: Heap, root: Ptr, t: Tree, node: Ptr)
    requires 0 !in h && IsRbTree(h, root, t) && node in Ptrs(t)
    ensures node in h && h[node].parent != node
  {
    var c, s := SplitAt(h, root, t, node);
    NodeCell(h, root, c, s);
    ContextPtrAt(h, root, c, s);
  }

  lemma {:induction false} SplitUp(h: Heap, root: Ptr, c: Context, t: Tree)
    requires Split(h, root, c, t) && c.Up?
    ensures var m := Mk(c.d, c.ptr, c.color, t, c.sib);
      Split(h, root, c.rest, m) && m.Node? && m.ptr == c.ptr
  {
    MkPtrs(c.d, c.ptr, c.color, t, c.sib);
  }

  lemma {:induction false} ParentSide(h: Heap, root: Ptr, c: Context, t: Tree, d: Dir)
    requires 0 !in h && Split(h, root, c, t) && t.Node?
    ensures c.Up? ==> c.ptr in h && c.ptr != 0 && (t.ptr == Kid(h[c.ptr], d) <==> c.d == d)
  {
    if c.Up? { RootInPtrs(c.sib); }
  }

  lemma {:induction false} TopBeyond(c: Context, d: Dir)
    requires c.Top?
    ensures Edge(Beyond(c, d), d.Flip()) == 0
  {
  }

  lemma {:induction false} NeighbourSplit(c: Context, s: Tree, d: Dir)
    requires s.Node? && s.ptr !in Ptrs(s.l) && s.ptr !in Ptrs(s.r) && ContextPtrs(c) !! Ptrs(s)
      && Ptrs(s) == {s.ptr} + Ptrs(s.l) + Ptrs(s.r)
    ensures NeighbourIn(Whole(c, s), s.ptr, d) ==
      if Side(s, d).Node? then Edge(InOrder(Side(s, d)), d.Flip()) else Edge(Beyond(c, d), d.Flip())
  {
    hide Before, After, ContextPtrs, InOrder, Ptrs, NeighbourIn;
    BeyondPtrs(c, Lf, s.ptr);
    BeyondPtrs(c, Rt, s.ptr);
    InOrderPtrs(s.l);
    InOrderPtrs(s.r);
    NodeOrder(s);
    var a, b := Before(c) + InOrder(s.l), InOrder(s.r) + After(c);
    assert Whole(c, s) == a + [s.ptr] + b;
    NeighbourAt(a, s.ptr, b, d);
    NonEmpty(s.l);
    NonEmpty(s.r);
  }

  lemma {:induction false} NodeOrder(s: Tree)
    requires s.Node?
    ensures InOrder(s) == InOrder(s.l) + [s.ptr] + InOrder(s.r)
  {
  }

  lemma {:induction false} NonEmpty(t: Tree)
    ensures t.Node? <==> InOrder(t) != []
  {
  }

  // ---------------------------------------------------------------- what lies outside

  /**
   The nodes of `s` link only to each other, and the cells of all others are those of `base`: what
   follows links from `s` and writes there leaves the rest alone.
   */
  ghost predicate Inside(base: Heap, h: Heap, root: Ptr, s: set<Ptr>) {
    && (root == 0 || root in s)
    && (forall p | p in s :: p in h && LinksIn(h[p], s))
    && (forall p | p in base && p !in s :: p in h && h[p] == base[p])
  }

  ghost predicate LinksIn(n: RbNode, s: set<Ptr>) {
    (n.left == 0 || n.left in s) && (n.right == 0 || n.right in s) && (n.parent == 0 || n.parent in s)
  }

  lemma {:induction false} CellInside(base: Heap, h: Heap, root: Ptr, s: set<Ptr>, p: Ptr)
    requires Inside(base, h, root, s) && p in s
    ensures p in h && LinksIn(h[p], s)
  {
  }

  lemma {:induction false} PutInside(base: Heap, h: Heap, root: Ptr, s: set<Ptr>, p: Ptr, n: RbNode)
    requires Inside(base, h, root, s) && p in s && LinksIn(n, s)
    ensures Inside(base, h[p := n], root, s)
  {
  }

  lemma {:induction false} RelinkedInside(base: Heap, h: Heap, root: Ptr, s: set<Ptr>, d: Dir, top: Ptr, piv: Ptr,
                                          blacken: bool, color: Color)
    requires Inside(base, h, root, s) && top in s && piv in s
    ensures top in h && piv in h && (var tmp := Kid(h[piv], d.Flip()); tmp != 0 ==> tmp in h)
      && (h[top].parent == 0 || h[top].parent in s)
    ensures Inside(base, Relinked(h, d, top, piv, blacken, color), root, s)
  {
    hide Inside;
    CellInside(base, h, root, s, top);
    CellInside(base, h, root, s, piv);
    var tmp, k := Kid(h[piv], d.Flip()), h;
    if tmp != 0 {
      CellInside(base, h, root, s, tmp);
      k := h[tmp := h[tmp].(parent := top, color := if blacken then Black else h[tmp].color)];
      PutInside(base, h, root, s, tmp, k[tmp]);
    }
    var n, m := WithKid(h[top], d, tmp).(parent := piv, color := color),
      WithKid(h[piv], d.Flip(), top).(parent := h[top].parent, color := h[top].color);
    PutInside(base, k, root, s, top, n);
    PutInside(base, k[top := n], root, s, piv, m);
  }

  lemma {:induction false} LiftedInside(base: Heap, h: Heap, root: Ptr, s: set<Ptr>, d: Dir, node: Ptr, parent: Ptr)
    requires Inside(base, h, root, s) && node in s && parent in s
    ensures node in h && parent in h && (Kid(h[node], d) != 0 ==> Kid(h[node], d) in h)
    ensures Inside(base, Lifted(h, d, node, parent), root, s)
  {
    hide Inside;
    CellInside(base, h, root, s, node);
    CellInside(base, h, root, s, parent);
    var tmp, k := Kid(h[node], d), h;
    if tmp != 0 {
      CellInside(base, h, root, s, tmp);
      k := h[tmp := h[tmp].(parent := parent, color := Black)];
      PutInside(base, h, root, s, tmp, k[tmp]);
    }
    var n, m := WithKid(h[node], d, parent), WithKid(h[parent], d.Flip(), tmp).(parent := node, color := Red);
    PutInside(base, k, root, s, node, n);
    PutInside(base, k[node := n], root, s, parent, m);
  }

  lemma {:induction false} NephewLiftedInside(base: Heap, h: Heap, root: Ptr, s: set<Ptr>, d: Dir, parent: Ptr,
                                              sibling: Ptr, tmp2: Ptr)
    requires Inside(base, h, root, s) && parent in s && sibling in s && tmp2 in s
    ensures parent in h && sibling in h && tmp2 in h && (Kid(h[tmp2], d.Flip()) != 0 ==> Kid(h[tmp2], d.Flip()) in h)
    ensures Inside(base, NephewLifted(h, d, parent, sibling, tmp2), root, s)
  {
    hide Inside;
    CellInside(base, h, root, s, parent);
    CellInside(base, h, root, s, sibling);
    CellInside(base, h, root, s, tmp2);
    var tmp1, k := Kid(h[tmp2], d.Flip()), h;
    if tmp1 != 0 {
      CellInside(base, h, root, s, tmp1);
      k := h[tmp1 := h[tmp1].(parent := sibling, color := Black)];
      PutInside(base, h, root, s, tmp1, k[tmp1]);
    }
    var n, m := WithKid(h[sibling], d, tmp1).(parent := tmp2, color := Black), WithKid(h[tmp2], d.Flip(), sibling);
    PutInside(base, k, root, s, sibling, n);
    PutInside(base, k[sibling := n], root, s, tmp2, m);
    PutInside(base, k[sibling := n][tmp2 := m], root, s, parent, WithKid(h[parent], d.Flip(), tmp2));
  }

  lemma {:induction false} SplicedInside(base: Heap, h: Heap, root: Ptr, all: set<Ptr>, node: Ptr, s: Tree,
                                         ci: Context, y: Tree)
    requires Inside(base, h, root, all) && node in all && s.Node? && s.l.Node? && s.r.Node? && y.Node?
    requires node in h && h[node].left == s.l.ptr && h[node].right == s.r.ptr && s.l.ptr != 0 && s.r.ptr != 0
    requires y.ptr in all && y.ptr in h && h[y.ptr].right == Root(y.r) && (ci.Up? ==> ci.ptr in all)
    ensures s.l.ptr in h && (ci.Up? ==> ci.ptr in h && s.r.ptr in h) && Inside(base, Spliced(h, s, ci, y), root, all)
    ensures Root(y.r) == 0 || Root(y.r) in all
  {
    hide Inside;
    CellInside(base, h, root, all, node);
    CellInside(base, h, root, all, y.ptr);
    var x, k := y.ptr, h;
    if ci.Up? {
      CellInside(base, h, root, all, ci.ptr);
      var k1 := h[ci.ptr := h[ci.ptr].(left := Root(y.r))];
      PutInside(base, h, root, all, ci.ptr, k1[ci.ptr]);
      CellInside(base, k1, root, all, x);
      var k2 := k1[x := k1[x].(right := s.r.ptr)];
      PutInside(base, k1, root, all, x, k2[x]);
      CellInside(base, k2, root, all, s.r.ptr);
      k := k2[s.r.ptr := k2[s.r.ptr].(parent := x)];
      PutInside(base, k2, root, all, s.r.ptr, k[s.r.ptr]);
    }
    CellInside(base, k, root, all, x);
    var k3 := k[x := k[x].(left := s.l.ptr)];
    PutInside(base, k, root, all, x, k3[x]);
    CellInside(base, k3, root, all, s.l.ptr);
    PutInside(base, k3, root, all, s.l.ptr, k3[s.l.ptr].(parent := x));
    CellInside(base, h, root, all, s.l.ptr);
    if ci.Up? { CellInside(base, h, root, all, s.r.ptr); }
  }

  /** The nodes of a tree link to each other, apart from the parent of its root. */
  lemma {:induction false} RepLinks(h: Heap, par: Ptr, t: Tree, s: set<Ptr>)
    requires 0 !in h && Rep(h, par, t) && Ptrs(t) <= s && (par == 0 || par in s)
    ensures forall p | p in Ptrs(t) :: p in h && LinksIn(h[p], s)
    decreases t
  {
    if t.Node? {
      RootInPtrs(t.l);
      RootInPtrs(t.r);
      RepLinks(h, t.ptr, t.l, s);
      RepLinks(h, t.ptr, t.r, s);
    }
  }

  lemma {:induction false} TreeInside(h: Heap, root: Ptr, t: Tree)
    requires 0 !in h && IsRbTree(h, root, t)
    ensures Inside(h, h, root, Ptrs(t))
  {
    hide Rep, RedBlack, Distinct;
    RootInPtrs(t);
    RepLinks(h, 0, t, Ptrs(t));
  }

  lemma {:induction false} OutsideKept(base: Heap, h: Heap, root: Ptr, s: set<Ptr>)
    requires Inside(base, h, root, s)
    ensures forall p | p in base && p !in s :: p in h && h[p] == base[p]
  {
  }

  lemma {:induction false} LinkedInside(h: Heap, root: Ptr, t: Tree, c: Context, node: Ptr)
    requires 0 !in h && IsRbTree(h, root, t) && (c.Up? ==> c.ptr in Ptrs(t)) && node !in Ptrs(t) && node != 0
    ensures Inside(h, Linked(h, c, node), HungRoot(root, c, node), Ptrs(t) + {node})
  {
    hide Ptrs, Rep, RedBlack, Distinct;
    TreeInside(h, root, t);
  }
}
