/**
 How high a red-black tree can be, and so how long the loops of lib/rbtree.c run: they follow the
 links from the root down or from a place up.
 */
module RbBalance {
  import opened RbShape
  import opened RbSteps
  import opened Dyadic

  ghost function Height(t: Tree): nat {
    if t.Leaf? then 0 else 1 + if Height(t.l) > Height(t.r) then Height(t.l) else Height(t.r)
  }

  /** How many nodes are above a place */
  ghost function Depth(c: Context): nat {
    if c.Top? then 0 else 1 + Depth(c.rest)
  }

  /** `k` is at most twice the logarithm of `n + 1`. */
  ghost predicate Within(k: nat, n: nat) {
    Pow2(k) <= (n + 1) * (n + 1)
  }

  lemma {:induction false} Fewer(j: nat, k: nat, n: nat)
    requires j <= k && Within(k, n)
    ensures Within(j, n)
  {
    Pow2Mono(j, k);
  }

  lemma {:induction false} DepthUp(c: Context)
    requires c.Up?
    ensures Depth(c) == Depth(c.rest) + 1
    ensures c.rest.Up? ==> Depth(c) == Depth(c.rest.rest) + 2
  {
  }

  lemma {:induction false} HeightDown(t: Tree)
    requires t.Node?
    ensures Height(t.l) < Height(t) && Height(t.r) < Height(t)
  {
  }

  /** At most every other node on a path is red. */
  lemma {:induction false} HeightBound(t: Tree)
    requires RedBlack(t)
    ensures Height(t) <= 2 * BlackHeight(t) + if IsRed(t) then 1 else 0
  {
    if t.Node? {
      HeightBound(t.l);
      HeightBound(t.r);
    }
  }

  lemma {:induction false} SizeBound(t: Tree)
    requires RedBlack(t)
    ensures Pow2(BlackHeight(t)) <= |InOrder(t)| + 1
  {
    if t.Node? {
      SizeBound(t.l);
      SizeBound(t.r);
    }
  }

  lemma {:induction false} DepthBound(c: Context, t: Tree)
    ensures Depth(c) + Height(t) <= Height(Fill(c, t))
    decreases c
  {
    if c.Up? {
      DepthBound(c.rest, Mk(c.d, c.ptr, c.color, t, c.sib));
    }
  }

  lemma {:induction false} Squares(a: nat, b: nat)
    requires a <= b
    ensures a * a <= b * b
  {
  }

  /**
   A tree of `n` nodes is no higher than twice the logarithm of `n + 1`, so no more nodes than that
   are above any place.
   */
  lemma {:induction false} Balanced(h: Heap, root: Ptr, c: Context, t: Tree)
    requires IsRbTree(h, root, Fill(c, t))
    ensures Within(Height(Fill(c, t)), |InOrder(Fill(c, t))|) && Depth(c) + Height(t) <= Height(Fill(c, t))
  {
    hide Pow2, Height, Rep, Distinct, Fill;
    var whole := Fill(c, t);
    HeightBound(whole);
    SizeBound(whole);
    DepthBound(c, t);
    Pow2Mono(Height(whole), 2 * BlackHeight(whole));
    Pow2Add(BlackHeight(whole), BlackHeight(whole));
    Squares(Pow2(BlackHeight(whole)), |InOrder(whole)| + 1);
  }

  lemma {:induction false} TreeHeight(h: Heap, root: Ptr, t: Tree)
    requires IsRbTree(h, root, t)
    ensures Within(Height(t), |InOrder(t)|)
  {
    hide Height, Within;
    assert Fill(Top, t) == t;
    Balanced(h, root, Top, t);
  }

  lemma {:induction false} AppendDepth(c: Context, outer: Context)
    ensures Depth(Append(c, outer)) == Depth(c) + Depth(outer)
    decreases c
  {
    if c.Up? { AppendDepth(c.rest, outer); }
  }

  /** The place that is left when the successor has taken the place of a node is not below the tree. */
  lemma {:induction false} SplicedDepth(c: Context, s: Tree, ci: Context, y: Tree)
    requires s.Node? && y.Node? && LeftSpine(s, ci, y)
    ensures Depth(Respliced(c, s, ci, y)) <= Depth(c) + Height(s)
  {
    hide Fill, Append;
    AppendDepth(ci, Up(Rt, y.ptr, s.color, s.l, c));
    DepthBound(ci, y);
    HeightDown(s);
  }
}
