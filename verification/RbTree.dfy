/**
 The intrusive red-black tree of lib/rbtree.c and include/rbtree_augmented.h, as the memory
 updates the source performs.

 Each pair of mirrored branches of the source is written once, over a side `d`: with `d` left it
 is the first branch, with `d` right the second.
 */
module RbTree {
  import opened Lists
  import opened RbShape
  import opened RbOrder
  import opened RbSteps
  import opened RbBalance

  class RbRoot {
    /** All nodes, in or out of the tree. */
    var mem: Heap
    /** `rb_root.rb_node` */
    var root: Ptr
    /** The tree the nodes spell out between operations. */
    ghost var tree: Tree

    ghost predicate Valid()
      reads this
    {
      0 !in mem && IsRbTree(mem, root, tree)
    }

    constructor ()
      ensures Valid() && tree == Leaf && mem == map[]
    {
      mem, root, tree := map[], 0, Leaf;
    }

    // -------------------------------------------------------------- primitives

    /** `__rb_change_child`: the link that leads to `old_` now leads to `new_`. */
    method ChangeChild(old_: Ptr, new_: Ptr, parent: Ptr, ghost c: Context, ghost base: Heap, ghost all: set<Ptr>)
      requires 0 !in mem && parent == Above(c, 0)
      requires RepContext(mem, root, 0, c, old_)
      requires c.Up? ==> Root(c.sib) != old_
      requires Inside(base, mem, root, all) && (parent == 0 || parent in all) && (new_ == 0 || new_ in all)
      modifies this`mem, this`root
      ensures mem == Hung(old(mem), c, new_) && root == HungRoot(old(root), c, new_)
      ensures Inside(base, mem, root, all)
    {
      if parent != 0 {
        if mem[parent].left == old_ {
          mem := mem[parent := mem[parent].(left := new_)];
        } else {
          mem := mem[parent := mem[parent].(right := new_)];
        }
      } else {
        root := new_;
      }
    }

    /**
     One rotation: `piv`, on side `d` below `top`, takes the place of `top`.  The subtree between
     them changes sides and, with `blacken`, is coloured black; `piv` inherits the colour and the
     parent of `top`, and `top` gets `color` (`__rb_rotate_set_parents`).
     */
    method Rotate(d: Dir, top: Ptr, piv: Ptr, blacken: bool, color: Color,
                  ghost c: Context, ghost far: Tree, ghost mid: Tree, ghost near: Tree, ghost base: Heap,
                    ghost all: set<Ptr>)
      requires CanRotate(mem, root, d, top, piv, c, far, mid, near)
      requires Inside(base, mem, root, all) && top in all && piv in all
      modifies this`mem, this`root
      ensures mem.Keys == old(mem).Keys && Inside(base, mem, root, all)
      ensures Split(mem, root, c, Rotated(d, top, piv, blacken, color, old(mem[top].color), far, mid, near))
    {
      ghost var h, r := mem, root;
      var tmp, parent := Kid(mem[piv], d.Flip()), mem[top].parent;
      RelinkKeepsContext(h, r, d, top, piv, blacken, color, c, far, mid, near);
      RelinkedInside(base, mem, root, all, d, top, piv, blacken, color);
      Relink(d, top, piv, tmp, blacken, color);
      ChangeChild(top, piv, parent, c, base, all);
      RotatedRep(h, r, d, top, piv, blacken, color, c, far, mid, near);
    }

    // -------------------------------------------------------------- walking

    /** `rb_first` (side `Lf`) and `rb_last` (side `Rt`) */
    method First(d: Dir) returns (n: Ptr, ghost rounds: nat)
      requires Valid()
      ensures n == Edge(InOrder(tree), d) && Within(rounds, |InOrder(tree)|)
    {
      TreeHeight(mem, root, tree);
      n, rounds := root, 0;
      if n == 0 {
        assert tree == Leaf by { RootInPtrs(tree); }
        Fewer(0, Height(tree), |InOrder(tree)|);
        return;
      }
      n, rounds := Descend(n, d, 0, tree);
      Fewer(rounds, Height(tree), |InOrder(tree)|);
    }

    /** Follow the links on side `d` to the end. */
    method Descend(top: Ptr, d: Dir, ghost par: Ptr, ghost t: Tree) returns (n: Ptr, ghost rounds: nat)
      requires 0 !in mem && Rep(mem, par, t) && t.Node? && t.ptr == top
      ensures n == Edge(InOrder(t), d) && rounds < Height(t)
    {
      n, rounds := top, 0;
      ghost var y, p := t, par;
      EdgeDown(y, d);
      while Kid(mem[n], d) != 0
        invariant Rep(mem, p, y) && y.Node? && y.ptr == n
        invariant Edge(InOrder(t), d) == Edge(InOrder(y), d) && rounds + Height(y) <= Height(t)
        decreases Height(t) - rounds
      {
        EdgeDown(y, d);
        n, rounds := Kid(mem[n], d), rounds + 1;
        p, y := y.ptr, Side(y, d);
      }
      EdgeDown(y, d);
    }

    /** `rb_next` (side `Rt`) and `rb_prev` (side `Lf`) */
    method Neighbour(node: Ptr, d: Dir) returns (n: Ptr, ghost rounds: nat)
      requires Valid() && node in mem
      requires node in Ptrs(tree) || IsCleared(mem, node)
      ensures n == if node in Ptrs(tree) then NeighbourIn(InOrder(tree), node, d) else 0
      ensures Within(rounds, |InOrder(tree)|)
    {
      hide RepContext, DistinctContext, Distinct, InOrder, Before, After, Ptrs, ContextPtrs, RedBlack,
        RedBlackContext, BlackHeight, Rep,
        Split, Fill, Whole, NeighbourIn, Edge, Beyond, IsRbTree, Height, Depth, Within;
      TreeHeight(mem, root, tree);
      Fewer(0, Height(tree), |InOrder(tree)|);
      if node in Ptrs(tree) { NotCleared(mem, root, tree, node); }
      if mem[node].parent == node && mem[node].color == Red {
        return 0, 0;
      }
      ghost var c, s := SplitAt(mem, root, tree, node);
      NodeCell(mem, root, c, s);
      NeighbourSplit(c, s, d);
      DepthBound(c, s);
      HeightDown(s);
      if Kid(mem[node], d) != 0 {
        n, rounds := Descend(Kid(mem[node], d), d.Flip(), node, Side(s, d));
        Fewer(rounds, Height(tree), |InOrder(tree)|);
        return;
      }
      n, rounds := Climb(node, d, c, s);
      Fewer(rounds, Height(tree), |InOrder(tree)|);
    }

    /** Climb while the node is on side `d` of its parent. */
    method Climb(node: Ptr, d: Dir, ghost c0: Context, ghost t0: Tree) returns (parent: Ptr, ghost rounds: nat)
      requires 0 !in mem && Split(mem, root, c0, t0) && t0.Node? && t0.ptr == node
      ensures parent == Edge(Beyond(c0, d), d.Flip()) && rounds <= Depth(c0)
    {
      hide RepContext, DistinctContext, Distinct, InOrder, Before, After, Ptrs, ContextPtrs, RedBlack,
        RedBlackContext, BlackHeight, Rep,
        Split, Fill, Whole, Edge, Beyond, Depth;
      rounds := 0;
      var node := node;
      ghost var c, t := c0, t0;
      NodeCell(mem, root, c, t);
      parent := mem[node].parent;
      ParentSide(mem, root, c, t, d);
      while parent != 0 && node == Kid(mem[parent], d)
        invariant Split(mem, root, c, t) && t.Node? && t.ptr == node && node in mem && parent == Above(c, 0)
        invariant Edge(Beyond(c, d), d.Flip()) == Edge(Beyond(c0, d), d.Flip()) && rounds + Depth(c) <= Depth(c0)
        invariant parent != 0 ==> parent in mem && (node == Kid(mem[parent], d) <==> c.d == d)
        invariant parent == 0 <==> c.Top?
        decreases Depth(c0) - rounds
      {
        SplitUp(mem, root, c, t);
        BeyondUp(c, d);
        DepthUp(c);
        rounds := rounds + 1;
        c, t := c.rest, Mk(c.d, c.ptr, c.color, t, c.sib);
        node := parent;
        NodeCell(mem, root, c, t);
        parent := mem[node].parent;
        ParentSide(mem, root, c, t, d);
      }
      if c.Up? { BeyondUp(c, d); } else { TopBeyond(c, d); }
    }

    /** `RB_CLEAR_NODE`, on a node that is not in the tree. */
    method Clear(node: Ptr)
      requires Valid() && node in mem && node !in Ptrs(tree)
      modifies this`mem
      ensures Valid() && mem == old(mem)[node := old(mem)[node].(parent := node, color := Red)] && IsCleared(mem, node)
      ensures mem.Keys == old(mem).Keys
    {
      ghost var h := mem;
      mem := mem[node := mem[node].(parent := node, color := Red)];
      RepFrame(h, mem, 0, tree);
    }

    /**
     A node set to zero and then cleared, as `timer_init` does; it need not have been known before, and
     must not be in the tree.
     */
    method Adopt(node: Ptr)
      requires Valid() && node != 0
      modifies this`mem
      ensures mem == old(mem)[node := RbNode(0, 0, node, Red)] && IsCleared(mem, node)
      ensures Valid() <==> node !in Ptrs(tree)
    {
      hide Ptrs, Rep;
      ghost var h := mem;
      mem := mem[node := RbNode(0, 0, 0, Red)];
      mem := mem[node := mem[node].(parent := node, color := Red)];
      if node !in Ptrs(tree) {
        RepInHeap(h, 0, tree);
        RepFrame(h, mem, 0, tree);
      } else if IsRbTree(mem, root, tree) {
        NotCleared(mem, root, tree, node);
      }
    }

    // -------------------------------------------------------------- removal

    /** `rb_erase`; `rounds` is how often the repair moves up. */
    method Erase(node: Ptr) returns (ghost rounds: nat)
      requires Valid() && node in Ptrs(tree)
      modifies this
      ensures Valid()
      ensures InOrder(tree) == Without(old(InOrder(tree)), node)
      ensures Ptrs(tree) == old(Ptrs(tree)) - {node}
      ensures mem.Keys == old(mem).Keys && forall p | p in old(mem) && p !in old(Ptrs(tree)) :: mem[p] == old(mem)[p]
      ensures Within(rounds, |old(InOrder(tree))|)
    {
      hide RepContext, DistinctContext, Rep, Distinct, InOrder, Before, After, Ptrs, ContextPtrs, RedBlack,
        RedBlackContext, BlackHeight,
        Split, IsRbTree, Fill, Whole, Without, Lacking, Inside, Depth, Height, Within;
      TreeHeight(mem, root, tree);
      ghost var high := Height(tree);
      var rebalance;
      ghost var c;
      TreeInside(mem, root, tree);
      rebalance, c := EraseNode(node, mem, Ptrs(tree));
      rounds := 0;
      if rebalance != 0 {
        rounds := EraseColor(rebalance, c, old(mem), old(Ptrs(tree)));
      }
      Fewer(rounds, high, |old(InOrder(tree))|);
      OutsideKept(old(mem), mem, root, old(Ptrs(tree)));
    }

    /**
     `__rb_erase_augmented`: take the node out of the tree.  The tree is legal again, or it is one
     black node short below `rebalance`.
     */
    method EraseNode(node: Ptr, ghost base: Heap, ghost all: set<Ptr>) returns (rebalance: Ptr, ghost c': Context)
      requires Valid() && node in Ptrs(tree) && Inside(base, mem, root, all) && node in all
      modifies this
      ensures 0 !in mem && mem.Keys == old(mem).Keys && Inside(base, mem, root, all)
        && (rebalance == 0 || rebalance in all)
      ensures rebalance == 0 ==>
        Valid() && InOrder(tree) == Without(old(InOrder(tree)), node) && Ptrs(tree) == old(Ptrs(tree)) - {node}
      ensures rebalance != 0 ==>
        && Lacking(mem, root, c', Leaf) && c'.Up? && c'.ptr == rebalance
        && Whole(c', Leaf) == Without(old(InOrder(tree)), node)
           && ContextPtrs(c') + Ptrs(Leaf) == old(Ptrs(tree)) - {node}
        && Depth(c') <= Height(old(tree))
    {
      hide RepContext, DistinctContext, Rep, Distinct, InOrder, Before, After, Ptrs, ContextPtrs, RedBlack,
        RedBlackContext, BlackHeight,
        Split, IsRbTree, Fill, Whole, Without, Lacking, Inside, Depth, Height;
      ghost var c, s := SplitAt(mem, root, tree, node);
      DepthBound(c, s);
      NodeCell(mem, root, c, s);
      CellInside(base, mem, root, all, node);
      var child, tmp := mem[node].right, mem[node].left;
      if tmp == 0 {
        rebalance := EraseOnly(node, child, c, s, s.r, base, all);
        c' := c;
      } else if child == 0 {
        rebalance := EraseOnly(node, tmp, c, s, s.l, base, all);
        c' := c;
      } else {
        rebalance, c' := EraseInner(node, c, s, base, all);
      }
    }

    /** Case 1 of `__rb_erase_augmented`: at most one child, which takes the place of the node. */
    method EraseOnly(node: Ptr, child: Ptr, ghost c: Context, ghost s: Tree, ghost t: Tree, ghost base: Heap,
                     ghost all: set<Ptr>)
      returns (rebalance: Ptr)
      requires 0 !in mem && Hole(mem, root, c, s) && s.ptr == node
      requires child == Root(t) && OnlySubtree(s, t)
      requires Inside(base, mem, root, all) && node in all && (child == 0 || child in all)
      modifies this
      ensures 0 !in mem && mem.Keys == old(mem).Keys && Inside(base, mem, root, all)
        && (rebalance == 0 || rebalance in all)
      ensures rebalance == 0 ==>
        Valid() && InOrder(tree) == Without(Whole(c, s), node) && Ptrs(tree) == ContextPtrs(c) + Ptrs(s) - {node}
      ensures rebalance != 0 ==>
        && Lacking(mem, root, c, Leaf) && c.Up? && c.ptr == rebalance
        && Whole(c, Leaf) == Without(Whole(c, s), node)
           && ContextPtrs(c) + Ptrs(Leaf) == ContextPtrs(c) + Ptrs(s) - {node}
    {
      hide RepContext, DistinctContext, Rep, Distinct, InOrder, Before, After, Ptrs, ContextPtrs, RedBlack,
        RedBlackContext, BlackHeight,
        Split, IsRbTree, Fill, Whole, Without, Lacking, Inside;
      NodeCell(mem, root, c, s);
      CellInside(base, mem, root, all, node);
      OnlyChild(mem, root, c, s, t);
      ghost var h, r := mem, root;
      var parent, color := mem[node].parent, mem[node].color;
      ChangeChild(node, child, parent, c, base, all);
      rebalance := 0;
      if child != 0 {
        CellInside(base, mem, root, all, child);
        PutInside(base, mem, root, all, child, mem[child].(parent := parent, color := color));
        mem := mem[child := mem[child].(parent := parent, color := color)];
        Assemble(mem, root, c, t.(color := Black));
        tree := Fill(c, t.(color := Black));
      } else {
        rebalance := if color == Black then parent else 0;
        if rebalance == 0 {
          Assemble(mem, root, c, Leaf);
          tree := Fill(c, Leaf);
        }
      }
    }

    /**
     `____rb_erase_color`: every path through the place `node` below `parent` is one black node
     short; climb until the shortage is made good or has reached the root.
     */
    method EraseColor(parent: Ptr, ghost c0: Context, ghost base: Heap, ghost all: set<Ptr>)
      returns (ghost rounds: nat)
      requires Inside(base, mem, root, all) && parent in all
      requires 0 !in mem && Lacking(mem, root, c0, Leaf) && c0.Up? && c0.ptr == parent
      modifies this
      ensures Valid()
      ensures InOrder(tree) == Whole(c0, Leaf) && Ptrs(tree) == ContextPtrs(c0) + Ptrs(Leaf)
      ensures mem.Keys == old(mem).Keys && Inside(base, mem, root, all)
      ensures rounds < Depth(c0)
    {
      hide RepContext, DistinctContext, Rep, Distinct, InOrder, Before, After, Ptrs, ContextPtrs, RedBlack,
        RedBlackContext, BlackHeight,
        Split, IsRbTree, Fill, Whole, Apart, Rotated, CanRotate, Mk, Lacking, Inside, Depth;
      var node, parent := 0, parent;
      ghost var c, t := c0, Leaf;
      rounds := 0;
      while true
        invariant 0 !in mem && Lacking(mem, root, c, t) && c.Up? && c.ptr == parent && Root(t) == node
        invariant Whole(c, t) == Whole(c0, Leaf)
        invariant ContextPtrs(c) + Ptrs(t) == ContextPtrs(c0) + Ptrs(Leaf) && rounds + Depth(c) <= Depth(c0)
        invariant mem.Keys == old(mem).Keys && Inside(base, mem, root, all) && parent in all
        decreases Depth(c0) - rounds
      {
        DepthUp(c);
        LackingAt(mem, root, c, t);
        var d := if node != mem[parent].right then Lf else Rt;
        var sibling := Kid(mem[parent], d.Flip());
        CellInside(base, mem, root, all, parent);
        CellInside(base, mem, root, all, sibling);
        if mem[sibling].color == Red {
          // Case 1: a rotation gives the place a black sibling and a red parent.
          var tmp1 := Kid(mem[sibling], d);
          RedSibling(mem, root, c, t);
          ghost var s := c.sib;
          Rotate(d.Flip(), parent, sibling, true, Red, c.rest, Side(s, d.Flip()), Side(s, d), t, base, all);
          RedSiblingDone(mem, root, c, t);
          c := Raised(c);
          sibling := tmp1;
          LackingAt(mem, root, c, t);
        }
        var tmp1 := Kid(mem[sibling], d.Flip());
        var tmp2 := Kid(mem[sibling], d);
        if (tmp1 == 0 || mem[tmp1].color == Black) && (tmp2 == 0 || mem[tmp2].color == Black) {
          // Case 2: the sibling turns red and the shortage moves to the parent.
          var up := EraseFlip(parent, sibling, c, t, base, all);
          if up == 0 {
            return;
          }
          node := parent;
          parent := up;
          rounds := rounds + 1;
          c, t := c.rest, Flipped(c, t);
        } else {
          // Cases 3 and 4: one or two rotations make the shortage good.
          EraseRotate(d, parent, sibling, c, t, base, all);
          return;
        }
      }
    }

    /** Case 2 of `____rb_erase_color`; returns the next `parent`, or null when the loop ends. */
    method EraseFlip(parent: Ptr, sibling: Ptr, ghost c: Context, ghost t: Tree, ghost base: Heap,
                     ghost all: set<Ptr>) returns (up: Ptr)
      requires Inside(base, mem, root, all) && parent in all && sibling in all
      requires 0 !in mem && Lacking(mem, root, c, t) && c.ptr == parent && c.sib.Node? && c.sib.ptr == sibling
      requires c.sib.color == Black && !IsRed(c.sib.l) && !IsRed(c.sib.r)
      modifies this
      ensures mem.Keys == old(mem).Keys && Inside(base, mem, root, all) && (up == 0 || up in all)
      ensures Whole(c.rest, Flipped(c, t)) == Whole(c, t)
        && ContextPtrs(c.rest) + Ptrs(Flipped(c, t)) == ContextPtrs(c) + Ptrs(t)
      ensures up == 0 ==> Valid() && InOrder(tree) == Whole(c, t) && Ptrs(tree) == ContextPtrs(c) + Ptrs(t)
      ensures up != 0 ==>
        && c.color == Black && Lacking(mem, root, c.rest, Flipped(c, t)) && c.rest.Up?
        && c.rest.ptr == up && Root(Flipped(c, t)) == parent
    {
      hide RepContext, DistinctContext, Rep, Distinct, InOrder, Before, After, Ptrs, ContextPtrs, RedBlack,
        RedBlackContext, BlackHeight,
        Split, IsRbTree, Fill, Whole, Apart, CanRotate, Mk, Lacking, MkCell, Flipped, Inside;
      LackingAt(mem, root, c, t);
      CellInside(base, mem, root, all, parent);
      CellInside(base, mem, root, all, sibling);
      FlipSibling(mem, root, c, t);
      ghost var t1 := Flipped(c, t);
      PutInside(base, mem, root, all, sibling, mem[sibling].(parent := parent, color := Red));
      mem := mem[sibling := mem[sibling].(parent := parent, color := Red)];
      up := 0;
      if mem[parent].color == Red {
        PutInside(base, mem, root, all, parent, mem[parent].(color := Black));
        mem := mem[parent := mem[parent].(color := Black)];
      } else {
        up := mem[parent].parent;
      }
      if up == 0 {
        Assemble(mem, root, c.rest, t1);
        tree := Fill(c.rest, t1);
      }
    }

    /** Cases 2 and 3 of `__rb_erase_augmented`: the in-order successor takes the place of the node. */
    method EraseInner(node: Ptr, ghost c: Context, ghost s: Tree, ghost base: Heap, ghost all: set<Ptr>)
      returns (rebalance: Ptr, ghost c': Context)
      requires 0 !in mem && Hole(mem, root, c, s) && s.ptr == node && s.l.Node? && s.r.Node?
      requires Inside(base, mem, root, all) && node in all
      modifies this
      ensures 0 !in mem && mem.Keys == old(mem).Keys && Inside(base, mem, root, all)
        && (rebalance == 0 || rebalance in all)
      ensures rebalance == 0 ==>
        Valid() && InOrder(tree) == Without(Whole(c, s), node) && Ptrs(tree) == ContextPtrs(c) + Ptrs(s) - {node}
      ensures rebalance != 0 ==>
        && Lacking(mem, root, c', Leaf) && c'.Up? && c'.ptr == rebalance
        && Whole(c', Leaf) == Without(Whole(c, s), node)
           && ContextPtrs(c') + Ptrs(Leaf) == ContextPtrs(c) + Ptrs(s) - {node}
        && Depth(c') <= Depth(c) + Height(s)
    {
      hide RepContext, DistinctContext, Rep, Distinct, InOrder, Before, After, Ptrs, ContextPtrs, RedBlack,
        RedBlackContext, BlackHeight,
        Split, IsRbTree, Fill, Whole, Without, Lacking, Append, Inside, Depth, Height;
      NodeCell(mem, root, c, s);
      CellInside(base, mem, root, all, node);
      var successor, parent, child2;
      ghost var ci, y;
      successor, parent, ci, y := Successor(node, c, s, base, all);
      ghost var h, r := mem, root;
      SpliceReady(h, r, c, s, ci, y);
      var child := mem[node].right;
      child2 := mem[successor].right;
      SplicedInside(base, h, r, all, node, s, ci, y);
      if successor != child {
        mem := mem[parent := mem[parent].(left := child2)];
        mem := mem[successor := mem[successor].(right := child)];
        mem := mem[child := mem[child].(parent := successor)];
      }
      var tmp := mem[node].left;
      mem := mem[successor := mem[successor].(left := tmp)];
      mem := mem[tmp := mem[tmp].(parent := successor)];
      var pc := mem[node];
      CellInside(base, mem, root, all, node);
      assert mem == Spliced(h, s, ci, y);
      ChangeChild(node, successor, pc.parent, c, base, all);
      var color2 := mem[successor].color;
      CellInside(base, mem, root, all, successor);
      PutInside(base, mem, root, all, successor, mem[successor].(parent := pc.parent, color := pc.color));
      mem := mem[successor := mem[successor].(parent := pc.parent, color := pc.color)];
      if child2 != 0 {
        CellInside(base, mem, root, all, child2);
        PutInside(base, mem, root, all, child2, mem[child2].(parent := parent, color := Black));
        mem := mem[child2 := mem[child2].(parent := parent, color := Black)];
      }
      SpliceDone(h, r, c, s, ci, y);
      c' := Respliced(c, s, ci, y);
      SplicedDepth(c, s, ci, y);
      rebalance := if child2 == 0 && color2 == Black then parent else 0;
      if rebalance == 0 {
        Assemble(mem, root, c', Blackened(true, y.r));
        tree := Fill(c', Blackened(true, y.r));
      }
    }

    /** The leftmost node below the right child, with the path that leads to it. */
    method Successor(node: Ptr, ghost c: Context, ghost s: Tree, ghost base: Heap, ghost all: set<Ptr>)
      returns (successor: Ptr, parent: Ptr, ghost ci: Context, ghost y: Tree)
      requires 0 !in mem && Split(mem, root, c, s) && s.Node? && s.ptr == node && s.r.Node?
      requires Inside(base, mem, root, all) && node in all
      ensures LeftSpine(s, ci, y) && y.ptr == successor && successor in all && parent in all
      ensures parent == if ci.Up? then ci.ptr else successor
    {
      hide RepContext, DistinctContext, Rep, Distinct, InOrder, Before, After, Ptrs, ContextPtrs, RedBlack,
        RedBlackContext, BlackHeight, Split, Fill, Inside;
      NodeCell(mem, root, c, s);
      CellInside(base, mem, root, all, node);
      var child := mem[node].right;
      successor, parent := child, child;
      ci, y := Top, s.r;
      SpineStart(s);
      SpineCell(mem, s, ci, y);
      var tmp := mem[child].left;
      while tmp != 0
        invariant Fill(ci, y) == s.r && Before(ci) == [] && y.Node? && y.ptr == successor
        invariant y.ptr in mem && tmp == Root(y.l) && mem[successor].left == tmp && (tmp == 0 <==> y.l.Leaf?)
        invariant parent == if ci.Up? then ci.ptr else successor
        invariant successor in all && parent in all
        decreases y
      {
        CellInside(base, mem, root, all, successor);
        parent := successor;
        SpineStep(ci, y);
        ci, y := Up(Lf, y.ptr, y.color, y.r, ci), y.l;
        SpineCell(mem, s, ci, y);
        successor := tmp;
        tmp := mem[tmp].left;
      }
    }

    /** Cases 3 and 4 of `____rb_erase_color`: the black sibling has a red child. */
    method EraseRotate(d: Dir, parent: Ptr, sibling: Ptr, ghost c: Context, ghost t: Tree, ghost base: Heap,
                       ghost all: set<Ptr>)
      requires Inside(base, mem, root, all) && parent in all && sibling in all
      requires 0 !in mem && Lacking(mem, root, c, t) && c.ptr == parent && c.d == d && c.sib.Node?
        && c.sib.ptr == sibling
      requires c.sib.color == Black && (IsRed(c.sib.l) || IsRed(c.sib.r))
      modifies this
      ensures Valid()
      ensures InOrder(tree) == Whole(c, t) && Ptrs(tree) == ContextPtrs(c) + Ptrs(t)
      ensures mem.Keys == old(mem).Keys && Inside(base, mem, root, all)
    {
      hide RepContext, DistinctContext, Rep, Distinct, InOrder, Before, After, Ptrs, ContextPtrs, RedBlack,
        RedBlackContext, BlackHeight,
        Split, IsRbTree, Fill, Whole, Apart, Rotated, CanRotate, Mk, Lacking, MkCell, Inside;
      LackingAt(mem, root, c, t);
      CellInside(base, mem, root, all, sibling);
      ghost var far, mid := Side(c.sib, d.Flip()), Side(c.sib, d);
      var tmp1 := Kid(mem[sibling], d.Flip());
      if tmp1 == 0 || mem[tmp1].color == Black {
        // Case 3: the sibling's inner child is red and is rotated above it.
        var tmp2 := Kid(mem[sibling], d);
        InnerNephew(mem, root, c, t);
        NephewLiftedInside(base, mem, root, all, d, parent, sibling, tmp2);
        LiftNephew(d, parent, sibling, tmp2);
        Rotate(d.Flip(), parent, tmp2, false, Black, c.rest, Mk(d.Flip(), sibling, Black, far, Side(mid, d.Flip())),
          Side(mid, d), t, base, all);
        Assemble(mem, root, c.rest, InnerNephewResult(c, t));
        tree := Fill(c.rest, InnerNephewResult(c, t));
      } else {
        // Case 4: the sibling's outer child is red.
        OuterNephew(mem, root, c, t);
        CellInside(base, mem, root, all, tmp1);
        PutInside(base, mem, root, all, tmp1, mem[tmp1].(parent := sibling, color := Black));
        mem := mem[tmp1 := mem[tmp1].(parent := sibling, color := Black)];
        Rotate(d.Flip(), parent, sibling, false, Black, c.rest, Blackened(true, far), mid, t, base, all);
        Assemble(mem, root, c.rest, OuterNephewResult(c, t));
        tree := Fill(c.rest, OuterNephewResult(c, t));
      }
    }

    /** The relinking of Case 3 of `____rb_erase_color`, and the colouring of its lower node. */
    method LiftNephew(d: Dir, parent: Ptr, sibling: Ptr, tmp2: Ptr)
      requires parent in mem && sibling in mem && tmp2 in mem && parent != sibling && parent != tmp2 && sibling != tmp2
      requires var tmp1 := Kid(mem[tmp2], d.Flip());
        tmp1 != parent && tmp1 != sibling && tmp1 != tmp2 && (tmp1 != 0 ==> tmp1 in mem)
      modifies this`mem
      ensures mem == NephewLifted(old(mem), d, parent, sibling, tmp2)
    {
      var tmp1 := Kid(mem[tmp2], d.Flip());
      mem := mem[sibling := WithKid(mem[sibling], d, tmp1)];
      mem := mem[tmp2 := WithKid(mem[tmp2], d.Flip(), sibling)];
      mem := mem[parent := WithKid(mem[parent], d.Flip(), tmp2)];
      if tmp1 != 0 {
        mem := mem[tmp1 := mem[tmp1].(parent := sibling, color := Black)];
      }
      mem := mem[sibling := mem[sibling].(parent := tmp2, color := Black)];
    }

    // -------------------------------------------------------------- insertion

    /**
     `rb_link_node`, then `rb_insert_color`: a red leaf put into any empty place of the tree; `rounds`
     is how often the climb goes on above.
     */
    method Insert(node: Ptr, parent: Ptr, d: Dir, ghost c: Context) returns (ghost rounds: nat)
      requires Valid() && node != 0 && node !in Ptrs(tree)
      requires Fill(c, Leaf) == tree && parent == Above(c, 0) && (c.Up? ==> d == c.d)
      modifies this
      ensures Valid()
      ensures InOrder(tree) == Before(c) + [node] + After(c)
      ensures Ptrs(tree) == old(Ptrs(tree)) + {node}
      ensures mem.Keys == old(mem).Keys + {node}
      ensures forall p | p in old(mem) && p !in Ptrs(tree) :: mem[p] == old(mem)[p]
      ensures Within(2 * rounds, |old(InOrder(tree))|)
    {
      hide RepContext, DistinctContext, Rep, Distinct, InOrder, Before, After, RedBlack, RedBlackContext, BlackHeight,
        Split, IsRbTree, Fill, Climbing, Inside, Depth, Height, Within;
      ghost var h, r := mem, root;
      LinkedRep(h, r, c, node);
      LinkedInside(h, r, tree, c, node);
      ghost var all := Ptrs(tree) + {node};
      mem := mem[node := RbNode(0, 0, parent, Red)];
      if parent != 0 {
        mem := mem[parent := WithKid(mem[parent], d, node)];
      } else {
        root := node;
      }
      Balanced(h, r, c, Leaf);
      rounds := InsertColor(node, c, Node(node, Red, Leaf, Leaf), h, all);
      Fewer(2 * rounds, Height(Fill(c, Leaf)), |old(InOrder(tree))|);
      OutsideKept(h, mem, root, all);
    }

    /** `__rb_insert`: climb from a red node until no red node has a red child. */
    method InsertColor(node: Ptr, ghost c0: Context, ghost t0: Tree, ghost base: Heap, ghost all: set<Ptr>)
      returns (ghost rounds: nat)
      requires Inside(base, mem, root, all) && node in all
      requires 0 !in mem && Climbing(mem, root, c0, t0) && t0.ptr == node
      modifies this
      ensures Valid()
      ensures InOrder(tree) == Whole(c0, t0)
      ensures Ptrs(tree) == ContextPtrs(c0) + Ptrs(t0)
      ensures mem.Keys == old(mem).Keys && Inside(base, mem, root, all)
      ensures 2 * rounds <= Depth(c0)
    {
      hide RepContext, DistinctContext, Rep, Distinct, InOrder, Before, After, Ptrs, ContextPtrs, RedBlack,
        RedBlackContext, BlackHeight,
        Split, Mk, IsRbTree, Fill, Recolored, Whole, Inside, Depth;
      var node := node;
      ghost var c, t := c0, t0;
      rounds := 0;
      NodeAt(mem, root, c, t);
      CellInside(base, mem, root, all, node);
      var parent := mem[node].parent;
      while true
        invariant 0 !in mem && Climbing(mem, root, c, t) && t.ptr == node && parent == Above(c, 0)
        invariant Whole(c, t) == Whole(c0, t0)
        invariant ContextPtrs(c) + Ptrs(t) == ContextPtrs(c0) + Ptrs(t0) && 2 * rounds + Depth(c) <= Depth(c0)
        invariant mem.Keys == old(mem).Keys && Inside(base, mem, root, all) && node in all
          && (parent == 0 || parent in all)
        decreases Depth(c0) - 2 * rounds
      {
        NodeAt(mem, root, c, t);
        if parent == 0 {
          RootIsBlackened(mem, root, t, node);
          CellInside(base, mem, root, all, node);
          PutInside(base, mem, root, all, node, mem[node].(parent := 0, color := Black));
          mem := mem[node := mem[node].(parent := 0, color := Black)];
          tree := t.(color := Black);
          return;
        }
        if mem[parent].color == Black {
          Assemble(mem, root, c, t);
          tree := Fill(c, t);
          return;
        }
        var gparent := mem[parent].parent;
        ClimbingAt(mem, root, c, t);
        CellInside(base, mem, root, all, parent);
        CellInside(base, mem, root, all, gparent);
        var d := if parent != mem[gparent].right then Lf else Rt;
        var tmp := Kid(mem[gparent], d.Flip());
        if tmp != 0 && mem[tmp].color == Red {
          // Case 1: the uncle is red, so colours are exchanged and the climb goes on above.
          DepthUp(c);
          rounds := rounds + 1;
          parent := InsertFlip(parent, gparent, tmp, c, t, base, all);
          node := gparent;
          c, t := c.rest.rest, Recolored(c, t);
        } else {
          // Cases 2 and 3: one or two rotations end the climb.
          InsertRotate(d, node, parent, gparent, c, t, base, all);
          return;
        }
      }
    }

    /** Case 1 of `__rb_insert`; returns the next `parent`. */
    method InsertFlip(parent: Ptr, gparent: Ptr, uncle: Ptr, ghost c: Context, ghost t: Tree,
                      ghost base: Heap, ghost all: set<Ptr>) returns (up: Ptr)
      requires Inside(base, mem, root, all) && parent in all && gparent in all && uncle in all
      requires 0 !in mem && Climbing(mem, root, c, t) && c.Up? && c.ptr == parent && c.color == Red
      requires c.rest.Up? && c.rest.ptr == gparent && IsRed(c.rest.sib) && c.rest.sib.ptr == uncle
      modifies this`mem
      ensures mem.Keys == old(mem).Keys && Inside(base, mem, root, all) && (up == 0 || up in all)
      ensures Climbing(mem, root, c.rest.rest, Recolored(c, t)) && Recolored(c, t).ptr == gparent
      ensures up == Above(c.rest.rest, 0) && Whole(c.rest.rest, Recolored(c, t)) == Whole(c, t)
      ensures ContextPtrs(c.rest.rest) + Ptrs(Recolored(c, t)) == ContextPtrs(c) + Ptrs(t)
    {
      hide RepContext, DistinctContext, Rep, Distinct, InOrder, Before, After, Ptrs, ContextPtrs, RedBlack,
        RedBlackContext, BlackHeight, Split, Mk, Recolored, Whole, Inside, Climbing;
      RecolorUncle(mem, root, c, t);
      CellInside(base, mem, root, all, uncle);
      CellInside(base, mem, root, all, parent);
      CellInside(base, mem, root, all, gparent);
      PutInside(base, mem, root, all, uncle, mem[uncle].(parent := gparent, color := Black));
      mem := mem[uncle := mem[uncle].(parent := gparent, color := Black)];
      PutInside(base, mem, root, all, parent, mem[parent].(parent := gparent, color := Black));
      mem := mem[parent := mem[parent].(parent := gparent, color := Black)];
      up := mem[gparent].parent;
      PutInside(base, mem, root, all, gparent, mem[gparent].(parent := up, color := Red));
      mem := mem[gparent := mem[gparent].(parent := up, color := Red)];
      ClimbingNode(mem, root, c.rest.rest, Recolored(c, t));
    }

    /** Cases 2 and 3 of `__rb_insert`: the uncle on the other side of `gparent` is black. */
    method InsertRotate(d: Dir, node: Ptr, parent: Ptr, gparent: Ptr, ghost c: Context, ghost t: Tree,
                        ghost base: Heap, ghost all: set<Ptr>)
      requires Inside(base, mem, root, all) && node in all && parent in all && gparent in all
      requires 0 !in mem && RedPair(mem, root, d, node, parent, gparent, c, t)
      modifies this
      ensures Valid()
      ensures InOrder(tree) == Whole(c, t) && Ptrs(tree) == ContextPtrs(c) + Ptrs(t)
      ensures mem.Keys == old(mem).Keys && Inside(base, mem, root, all)
    {
      hide RepContext, DistinctContext, Rep, Distinct, InOrder, Before, After, Ptrs, ContextPtrs, RedBlack,
        RedBlackContext, BlackHeight,
        CanRotate, Rotated, Split, Mk, MkCell, IsRbTree, Fill, Climbing, Whole, Inside;
      ghost var outer, near := c.rest.rest, c.rest.sib;
      ClimbingAt(mem, root, c, t);
      if node == Kid(mem[parent], d.Flip()) {
        // Case 2: node is the inner grandchild and is first rotated above its parent.
        ghost var h := mem;
        InnerLifted(h, root, d, node, parent, gparent, c, t);
        InnerDone(mem, root, d, node, parent, gparent, c, t);
        LiftedInside(base, mem, root, all, d, node, parent);
        Lift(d, node, parent);
        Rotate(d, gparent, node, true, Red, outer, Mk(d, parent, Red, c.sib, Side(t, d)), Side(t, d.Flip()), near,
          base, all);
        Assemble(mem, root, outer, InnerResult(d, c, t));
        tree := Fill(outer, InnerResult(d, c, t));
      } else {
        // Case 3: node is the outer grandchild.
        OuterReady(mem, root, d, node, parent, gparent, c, t);
        OuterDone(mem, root, d, node, parent, gparent, c, t);
        Rotate(d, gparent, parent, true, Red, outer, t, c.sib, near, base, all);
        Assemble(mem, root, outer, OuterResult(d, c, t));
        tree := Fill(outer, OuterResult(d, c, t));
      }
    }

    /** The relinking of Case 2 of `__rb_insert`. */
    method Lift(d: Dir, node: Ptr, parent: Ptr)
      requires node in mem && parent in mem && node != parent
      requires var tmp := Kid(mem[node], d); tmp != node && tmp != parent && (tmp != 0 ==> tmp in mem)
      modifies this`mem
      ensures mem == Lifted(old(mem), d, node, parent)
    {
      var tmp := Kid(mem[node], d);
      mem := mem[parent := WithKid(mem[parent], d.Flip(), tmp)];
      mem := mem[node := WithKid(mem[node], d, parent)];
      if tmp != 0 {
        mem := mem[tmp := mem[tmp].(parent := parent, color := Black)];
      }
      mem := mem[parent := mem[parent].(parent := node, color := Red)];
    }

    method Relink(d: Dir, top: Ptr, piv: Ptr, tmp: Ptr, blacken: bool, color: Color)
      requires top in mem && piv in mem && top != piv && tmp != top && tmp != piv
      requires tmp == Kid(mem[piv], d.Flip()) && (tmp != 0 ==> tmp in mem)
      modifies this`mem
      ensures mem == Relinked(old(mem), d, top, piv, blacken, color)
    {
      mem := mem[top := WithKid(mem[top], d, tmp)];
      mem := mem[piv := WithKid(mem[piv], d.Flip(), top)];
      if tmp != 0 {
        mem := mem[tmp := mem[tmp].(parent := top, color := if blacken then Black else mem[tmp].color)];
      }
      mem := mem[piv := mem[piv].(parent := mem[top].parent, color := mem[top].color)];
      mem := mem[top := mem[top].(parent := piv, color := color)];
    }
  }
}
