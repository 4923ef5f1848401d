/**
 The shapes behind the intrusive red-black tree of lib/rbtree.c.

 The tree lives in memory as nodes that point at each other (`Heap`).  A `Tree` is the
 mathematical tree those nodes spell out, and a `Context` is a tree with one hole: the path
 from the hole up to the root, which is exactly what the fix-up loops of the source walk along
 when they climb through parent pointers.  This module relates the three and states what the
 red-black rules mean for each.
 */
module RbShape {

  /** An address of a node; zero is the null pointer. */
  type Ptr = nat

  datatype Color = Red | Black

  /** The two sides of a node; the source writes each fix-up once per side. */
  datatype Dir = Lf | Rt {
    function Flip(): Dir {
      if this == Lf then Rt else Lf
    }
  }

  /** `struct rb_node`, with `__rb_parent_color` split into its two parts. */
  datatype RbNode = RbNode(left: Ptr, right: Ptr, parent: Ptr, color: Color)

  type Heap = map<Ptr, RbNode>

  function Kid(n: RbNode, d: Dir): Ptr {
    if d == Lf then n.left else n.right
  }

  function WithKid(n: RbNode, d: Dir, p: Ptr): RbNode {
    if d == Lf then n.(left := p) else n.(right := p)
  }

  datatype Tree = Leaf | Node(ptr: Ptr, color: Color, l: Tree, r: Tree)

  /** The node whose subtree on side `d` is `a` and on the other side is `b`. */
  ghost function Mk(d: Dir, p: Ptr, c: Color, a: Tree, b: Tree): Tree {
    if d == Lf then Node(p, c, a, b) else Node(p, c, b, a)
  }

  ghost function MkCell(d: Dir, a: Ptr, b: Ptr, parent: Ptr, c: Color): RbNode {
    if d == Lf then RbNode(a, b, parent, c) else RbNode(b, a, parent, c)
  }

  ghost function Root(t: Tree): Ptr {
    if t.Leaf? then 0 else t.ptr
  }

  ghost function Ptrs(t: Tree): set<Ptr> {
    if t.Leaf? then {} else {t.ptr} + Ptrs(t.l) + Ptrs(t.r)
  }

  ghost function InOrder(t: Tree): seq<Ptr> {
    if t.Leaf? then [] else InOrder(t.l) + [t.ptr] + InOrder(t.r)
  }

  /** No pointer is null and none occurs twice. */
  ghost predicate Distinct(t: Tree) {
    t.Node? ==>
      && t.ptr != 0
      && t.ptr !in Ptrs(t.l) && t.ptr !in Ptrs(t.r) && Ptrs(t.l) !! Ptrs(t.r)
      && Distinct(t.l) && Distinct(t.r)
  }

  /** In `h`, the tree `t` hangs below the node `par`: child and parent links agree. */
  ghost predicate Rep(h: Heap, par: Ptr, t: Tree)
    decreases t
  {
    t.Node? ==>
      && t.ptr in h
      && h[t.ptr] == RbNode(Root(t.l), Root(t.r), par, t.color)
      && Rep(h, t.ptr, t.l)
      && Rep(h, t.ptr, t.r)
  }

  /** A tree with a hole, seen from the hole: the hole is on side `d` of node `ptr`. */
  datatype Context = Top | Up(d: Dir, ptr: Ptr, color: Color, sib: Tree, rest: Context)

  /** The parent of the hole; `out` is what the whole context hangs below. */
  ghost function Above(c: Context, out: Ptr): Ptr {
    if c.Top? then out else c.ptr
  }

  ghost function Fill(c: Context, t: Tree): Tree
    decreases c
  {
    if c.Top? then t else Fill(c.rest, Mk(c.d, c.ptr, c.color, t, c.sib))
  }

  ghost function ContextPtrs(c: Context): set<Ptr> {
    if c.Top? then {} else {c.ptr} + Ptrs(c.sib) + ContextPtrs(c.rest)
  }

  ghost predicate DistinctContext(c: Context) {
    c.Up? ==>
      && c.ptr != 0
      && c.ptr !in Ptrs(c.sib) && c.ptr !in ContextPtrs(c.rest) && Ptrs(c.sib) !! ContextPtrs(c.rest)
      && Distinct(c.sib) && DistinctContext(c.rest)
  }

  /** In `h`, the context hangs below `out`, `root` is its topmost pointer and `hole` fills it. */
  ghost predicate RepContext(h: Heap, root: Ptr, out: Ptr, c: Context, hole: Ptr)
    decreases c
  {
    if c.Top? then root == hole
    else
      && c.ptr in h
      && h[c.ptr] == MkCell(c.d, hole, Root(c.sib), Above(c.rest, out), c.color)
      && Rep(h, c.ptr, c.sib)
      && RepContext(h, root, out, c.rest, c.ptr)
  }

  /** What comes before and after the hole in the in-order sequence. */
  ghost function Before(c: Context): seq<Ptr> {
    if c.Top? then []
    else if c.d == Lf then Before(c.rest)
    else Before(c.rest) + InOrder(c.sib) + [c.ptr]
  }

  ghost function After(c: Context): seq<Ptr> {
    if c.Top? then []
    else if c.d == Rt then After(c.rest)
    else [c.ptr] + InOrder(c.sib) + After(c.rest)
  }

  /** The in-order sequence of a tree taken apart at a hole. */
  ghost function Whole(c: Context, t: Tree): seq<Ptr> {
    Before(c) + InOrder(t) + After(c)
  }

  // ---------------------------------------------------------------- red-black rules

  ghost predicate IsRed(t: Tree) {
    t.Node? && t.color == Red
  }

  ghost function Weight(c: Color): nat {
    if c == Black then 1 else 0
  }

  ghost function BlackHeight(t: Tree): nat {
    if t.Leaf? then 0 else BlackHeight(t.l) + Weight(t.color)
  }

  /** Rules 4 and 5: no red node has a red child, all leaf paths have equally many black nodes. */
  ghost predicate RedBlack(t: Tree) {
    t.Node? ==>
      && RedBlack(t.l) && RedBlack(t.r)
      && BlackHeight(t.l) == BlackHeight(t.r)
      && (t.color == Red ==> !IsRed(t.l) && !IsRed(t.r))
  }

  /** The context obeys the rules for a hole of black height `n`, and its root is black. */
  ghost predicate RedBlackContext(c: Context, n: nat) {
    c.Up? ==>
      && RedBlack(c.sib) && BlackHeight(c.sib) == n
      && (c.color == Red ==> !IsRed(c.sib) && c.rest.Up? && c.rest.color == Black)
      && RedBlackContext(c.rest, n + Weight(c.color))
  }

  /** A whole tree as `rb_root` promises it. */
  ghost predicate IsRbTree(h: Heap, root: Ptr, t: Tree) {
    && Root(t) == root
    && Distinct(t)
    && Rep(h, 0, t)
    && RedBlack(t)
    && !IsRed(t)
  }

  /** A tree taken apart at a hole: pointers, links and distinctness of both halves. */
  ghost predicate Split(h: Heap, root: Ptr, c: Context, t: Tree) {
    && RepContext(h, root, 0, c, Root(t))
    && Rep(h, Above(c, 0), t)
    && DistinctContext(c) && Distinct(t)
    && ContextPtrs(c) !! Ptrs(t)
  }

  /** Two heaps agree on a set of nodes. */
  ghost predicate Same(h: Heap, k: Heap, s: set<Ptr>) {
    forall p {:trigger k[p]} {:trigger p in k} | p in s && p in h :: p in k && k[p] == h[p]
  }

  // ---------------------------------------------------------------- frames

  lemma {:induction false} RepFrame(h: Heap, k: Heap, par: Ptr, t: Tree)
    requires Rep(h, par, t)
    requires Same(h, k, Ptrs(t))
    ensures Rep(k, par, t)
    decreases t
  {
    if t.Node? {
      RepFrame(h, k, t.ptr, t.l);
      RepFrame(h, k, t.ptr, t.r);
    }
  }

  lemma {:induction false} RepContextFrame(h: Heap, k: Heap, root: Ptr, out: Ptr, c: Context, hole: Ptr)
    requires RepContext(h, root, out, c, hole)
    requires Same(h, k, ContextPtrs(c))
    ensures RepContext(k, root, out, c, hole)
  {
    if c.Up? {
      RepFrame(h, k, c.ptr, c.sib);
      RepContextFrame(h, k, root, out, c.rest, c.ptr);
    }
  }

  /** A subtree keeps its meaning when only the parent and the colour of its top node are changed. */
  lemma {:induction false} RepMoved(h: Heap, k: Heap, par: Ptr, t: Tree, par': Ptr, c: Color)
    requires t.Node? && Distinct(t) && Rep(h, par, t)
    requires t.ptr in k && k[t.ptr] == h[t.ptr].(parent := par', color := c)
    requires Same(h, k, Ptrs(t.l) + Ptrs(t.r))
    ensures Rep(k, par', t.(color := c))
  {
    RepFrame(h, k, t.ptr, t.l);
    RepFrame(h, k, t.ptr, t.r);
  }

  /** Building a node above two subtrees. */
  lemma {:induction false} MkIsRep(h: Heap, par: Ptr, d: Dir, p: Ptr, c: Color, a: Tree, b: Tree)
    requires p != 0 && p in h && h[p] == MkCell(d, Root(a), Root(b), par, c)
    requires Rep(h, p, a) && Rep(h, p, b) && Distinct(a) && Distinct(b)
    requires p !in Ptrs(a) && p !in Ptrs(b) && Ptrs(a) !! Ptrs(b)
    ensures Rep(h, par, Mk(d, p, c, a, b)) && Distinct(Mk(d, p, c, a, b))
    ensures Root(Mk(d, p, c, a, b)) == p && Ptrs(Mk(d, p, c, a, b)) == {p} + Ptrs(a) + Ptrs(b)
  {
  }

  lemma {:induction false} RootInPtrs(t: Tree)
    ensures t.Node? ==> Root(t) in Ptrs(t)
    ensures Distinct(t) ==> 0 !in Ptrs(t)
  {
    if t.Node? {
      RootInPtrs(t.l);
      RootInPtrs(t.r);
    }
  }

  lemma {:induction false} RepInHeap(h: Heap, par: Ptr, t: Tree)
    requires Rep(h, par, t)
    ensures Ptrs(t) <= h.Keys
    decreases t
  {
    if t.Node? {
      RepInHeap(h, t.ptr, t.l);
      RepInHeap(h, t.ptr, t.r);
    }
  }

  // ---------------------------------------------------------------- filling and splitting

  lemma {:induction false} FillIsRep(h: Heap, root: Ptr, out: Ptr, c: Context, t: Tree)
    requires RepContext(h, root, out, c, Root(t)) && Rep(h, Above(c, out), t)
    ensures Rep(h, out, Fill(c, t)) && Root(Fill(c, t)) == root
    decreases c
  {
    if c.Up? {
      FillIsRep(h, root, out, c.rest, Mk(c.d, c.ptr, c.color, t, c.sib));
    }
  }

  lemma {:induction false} FillIsDistinct(c: Context, t: Tree)
    requires DistinctContext(c) && Distinct(t) && ContextPtrs(c) !! Ptrs(t)
    ensures Distinct(Fill(c, t))
    ensures Ptrs(Fill(c, t)) == ContextPtrs(c) + Ptrs(t)
    decreases c
  {
    if c.Up? {
      FillIsDistinct(c.rest, Mk(c.d, c.ptr, c.color, t, c.sib));
    }
  }

  lemma {:induction false} FillInOrder(c: Context, t: Tree)
    ensures InOrder(Fill(c, t)) == Before(c) + InOrder(t) + After(c)
    decreases c
  {
    if c.Up? {
      FillInOrder(c.rest, Mk(c.d, c.ptr, c.color, t, c.sib));
      WholeStep(c, t);
    }
  }

  lemma {:induction false} WholeStep(c: Context, t: Tree)
    requires c.Up?
    ensures Whole(c, t) == Whole(c.rest, Mk(c.d, c.ptr, c.color, t, c.sib))
  {
    hide Fill;
    var x, y, a, p, b := Before(c.rest), After(c.rest), InOrder(t), [c.ptr], InOrder(c.sib);
    if c.d == Lf {
      assert x + (a + p + b) + y == x + a + (p + b + y);
    } else {
      assert x + (b + p + a) + y == (x + b + p) + a + y;
    }
  }

  lemma {:induction false} FillIsRedBlack(c: Context, t: Tree)
    requires RedBlack(t) && RedBlackContext(c, BlackHeight(t))
    requires IsRed(t) ==> c.Up? && c.color == Black
    ensures RedBlack(Fill(c, t)) && !IsRed(Fill(c, t))
    decreases c
  {
    if c.Up? {
      FillIsRedBlack(c.rest, Mk(c.d, c.ptr, c.color, t, c.sib));
    }
  }

  /** Taking a red-black tree apart leaves a context and a subtree that obey the rules. */
  lemma {:induction false} SplitRedBlack(c: Context, t: Tree)
    requires RedBlack(Fill(c, t)) && !IsRed(Fill(c, t))
    ensures RedBlack(t) && RedBlackContext(c, BlackHeight(t))
    ensures IsRed(t) ==> c.Up? && c.color == Black
    decreases c
  {
    if c.Up? {
      SplitRedBlack(c.rest, Mk(c.d, c.ptr, c.color, t, c.sib));
    }
  }

  lemma {:induction false} SplitRep(h: Heap, root: Ptr, out: Ptr, c: Context, t: Tree)
    requires Rep(h, out, Fill(c, t)) && Root(Fill(c, t)) == root
    ensures RepContext(h, root, out, c, Root(t)) && Rep(h, Above(c, out), t)
    decreases c
  {
    if c.Up? {
      SplitRep(h, root, out, c.rest, Mk(c.d, c.ptr, c.color, t, c.sib));
    }
  }

  lemma {:induction false} SplitDistinct(c: Context, t: Tree)
    requires Distinct(Fill(c, t))
    ensures DistinctContext(c) && Distinct(t) && ContextPtrs(c) !! Ptrs(t)
    ensures Ptrs(Fill(c, t)) == ContextPtrs(c) + Ptrs(t)
    decreases c
  {
    if c.Up? {
      SplitDistinct(c.rest, Mk(c.d, c.ptr, c.color, t, c.sib));
    }
  }

  /** A tree that is assembled from a legal context and a legal subtree is a red-black tree. */
  lemma {:induction false} Assemble(h: Heap, root: Ptr, c: Context, t: Tree)
    requires Split(h, root, c, t)
    requires RedBlack(t) && RedBlackContext(c, BlackHeight(t))
    requires IsRed(t) ==> c.Up? && c.color == Black
    ensures IsRbTree(h, root, Fill(c, t))
    ensures InOrder(Fill(c, t)) == Whole(c, t)
    ensures Ptrs(Fill(c, t)) == ContextPtrs(c) + Ptrs(t)
  {
    FillIsRep(h, root, 0, c, t);
    FillIsDistinct(c, t);
    FillIsRedBlack(c, t);
    FillInOrder(c, t);
  }

  /** Every node of a tree is the top of some subtree. */
  lemma {:induction false} Locate(t: Tree, outer: Context, x: Ptr) returns (c: Context, s: Tree)
    requires x in Ptrs(t)
    ensures s.Node? && s.ptr == x && Fill(c, s) == Fill(outer, t)
    decreases t
  {
    if t.ptr == x {
      c, s := outer, t;
    } else if x in Ptrs(t.l) {
      c, s := Locate(t.l, Up(Lf, t.ptr, t.color, t.r, outer), x);
    } else {
      c, s := Locate(t.r, Up(Rt, t.ptr, t.color, t.l, outer), x);
    }
  }

  /** Taking a red-black tree apart at one of its nodes. */
  lemma {:induction false} SplitAt(h: Heap, root: Ptr, t: Tree, x: Ptr) returns (c: Context, s: Tree)
    requires IsRbTree(h, root, t) && x in Ptrs(t)
    ensures s.Node? && s.ptr == x && Fill(c, s) == t
    ensures Split(h, root, c, s)
    ensures RedBlack(s) && RedBlackContext(c, BlackHeight(s))
    ensures IsRed(s) ==> c.Up? && c.color == Black
    ensures InOrder(t) == Whole(c, s)
    ensures Ptrs(t) == ContextPtrs(c) + Ptrs(s)
  {
    c, s := Locate(t, Top, x);
    SplitRep(h, root, 0, c, s);
    SplitDistinct(c, s);
    SplitRedBlack(c, s);
    FillInOrder(c, s);
  }

  // ---------------------------------------------------------------- composing contexts

  /** The context `c` placed inside the hole of `outer`. */
  ghost function Append(c: Context, outer: Context): Context
    decreases c
  {
    if c.Top? then outer else c.(rest := Append(c.rest, outer))
  }

  lemma {:induction false} AppendShape(c: Context, outer: Context, t: Tree)
    ensures Fill(Append(c, outer), t) == Fill(outer, Fill(c, t))
    ensures ContextPtrs(Append(c, outer)) == ContextPtrs(c) + ContextPtrs(outer)
    ensures Before(Append(c, outer)) == Before(outer) + Before(c)
    ensures After(Append(c, outer)) == After(c) + After(outer)
    decreases c
  {
    hide InOrder, Ptrs;
    AppendSeqs(c, outer);
    if c.Up? {
      hide Before, After;
      AppendShape(c.rest, outer, Mk(c.d, c.ptr, c.color, t, c.sib));
    }
  }

  lemma {:induction false} AppendSeqs(c: Context, outer: Context)
    ensures Before(Append(c, outer)) == Before(outer) + Before(c)
    ensures After(Append(c, outer)) == After(c) + After(outer)
    decreases c
  {
    hide InOrder;
    if c.Up? {
      AppendSeqs(c.rest, outer);
    }
  }

  lemma {:induction false} AppendRep(h: Heap, root: Ptr, mid: Ptr, c: Context, outer: Context, hole: Ptr)
    requires RepContext(h, mid, Above(outer, 0), c, hole)
    requires RepContext(h, root, 0, outer, mid)
    requires DistinctContext(c) && DistinctContext(outer) && ContextPtrs(c) !! ContextPtrs(outer)
    ensures RepContext(h, root, 0, Append(c, outer), hole)
    ensures DistinctContext(Append(c, outer))
    decreases c
  {
    if c.Up? {
      AppendRep(h, root, mid, c.rest, outer, c.ptr);
      AppendShape(c.rest, outer, Leaf);
    }
  }

  /** The rules only look at colours, so renaming a node on the path keeps them. */
  lemma {:induction false} RenameRedBlack(c: Context, o1: Context, o2: Context, n: nat)
    requires o1.Up? && o2.Up? && o2 == o1.(ptr := o2.ptr)
    requires RedBlackContext(Append(c, o1), n)
    ensures RedBlackContext(Append(c, o2), n)
    decreases c
  {
    if c.Up? {
      RenameRedBlack(c.rest, o1, o2, n + Weight(c.color));
    }
  }
}
