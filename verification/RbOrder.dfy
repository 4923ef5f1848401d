/**
 In-order sequences: removing an entry, and the neighbours of an entry.
 */
module RbOrder {
  import opened RbShape

  lemma {:induction false} InOrderPtrs(t: Tree)
    ensures forall p :: p in InOrder(t) <==> p in Ptrs(t)
  {
    if t.Node? {
      InOrderPtrs(t.l);
      InOrderPtrs(t.r);
    }
  }

  lemma {:induction false} BeforePtrs(c: Context, x: Ptr)
    requires x !in ContextPtrs(c)
    ensures x !in Before(c)
  {
    if c.Up? {
      BeforePtrs(c.rest, x);
      InOrderPtrs(c.sib);
    }
  }

  /** What follows the first occurrence of `x`; null at the end. */
  ghost function SuccIn(s: seq<Ptr>, x: Ptr): Ptr {
    if |s| < 2 then 0 else if s[0] == x then s[1] else SuccIn(s[1..], x)
  }

  /** What precedes `x`; null at the front. */
  ghost function PredIn(s: seq<Ptr>, x: Ptr): Ptr {
    if |s| < 2 then 0 else if s[1] == x then s[0] else PredIn(s[1..], x)
  }

  /** The neighbour of `x` on side `d`. */
  ghost function NeighbourIn(s: seq<Ptr>, x: Ptr, d: Dir): Ptr {
    if d == Rt then SuccIn(s, x) else PredIn(s, x)
  }

  /** The entry of a sequence that lies furthest on side `d`; null if there is none. */
  ghost function Edge(s: seq<Ptr>, d: Dir): Ptr {
    if s == [] then 0 else if d == Lf then s[0] else s[|s| - 1]
  }

  lemma {:induction false} NeighbourAt(a: seq<Ptr>, x: Ptr, b: seq<Ptr>, d: Dir)
    requires x !in a && x !in b
    ensures NeighbourIn(a + [x] + b, x, d) == if d == Rt then Edge(b, Lf) else Edge(a, Rt)
  {
    var s := a + [x] + b;
    if a == [] {
      assert s == [x] + b;
      if d == Lf { NotPred(s, x); }
    } else {
      assert s[1..] == a[1..] + [x] + b;
      NeighbourAt(a[1..], x, b, d);
      if d == Lf && |a| > 1 { assert a[1..][|a| - 2] == a[|a| - 1]; }
    }
  }

  lemma {:induction false} NotPred(s: seq<Ptr>, x: Ptr)
    requires s != [] && x !in s[1..]
    ensures PredIn(s, x) == 0
  {
    if |s| >= 2 {
      assert s[1] in s[1..];
      NotPred(s[1..], x);
    }
  }

  /** What lies beyond the hole on side `d`. */
  ghost function Beyond(c: Context, d: Dir): seq<Ptr> {
    if d == Rt then After(c) else Before(c)
  }

  lemma {:induction false} BeyondPtrs(c: Context, d: Dir, x: Ptr)
    requires x !in ContextPtrs(c)
    ensures x !in Beyond(c, d)
  {
    if c.Up? {
      BeyondPtrs(c.rest, d, x);
      InOrderPtrs(c.sib);
    }
  }

  /** Climbing from side `d` of a node passes nothing; climbing from the other side meets the node. */
  lemma {:induction false} BeyondUp(c: Context, d: Dir)
    requires c.Up?
    ensures c.d == d ==> Beyond(c, d) == Beyond(c.rest, d)
    ensures c.d != d ==> Edge(Beyond(c, d), d.Flip()) == c.ptr
  {
  }

  /** The extreme entry of a tree on side `d` is its top node or lies in the subtree on that side. */
  lemma {:induction false} EdgeDown(t: Tree, d: Dir)
    requires t.Node?
    ensures var k := if d == Lf then t.l else t.r;
      Edge(InOrder(t), d) == if k.Leaf? then t.ptr else Edge(InOrder(k), d)
  {
    if t.l.Node? { assert InOrder(t.l) != []; }
    if t.r.Node? { assert InOrder(t.r) != []; }
  }
}
