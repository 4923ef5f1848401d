/**
 The page frames of mm/buddy.c as a tiling by aligned blocks.

 `order[p]` is the order of the block that starts at frame `p`, or `INVALID_ORDER` where no block
 starts; `owner[q]` is the start of the block that frame `q` belongs to.
 */
module BuddyTiles {
  import opened Dyadic

  const MAX_ORDER: nat := 20
  const INVALID_ORDER: int := -1

  ghost predicate IsHead(order: seq<int>, p: int) {
    0 <= p < |order| && order[p] >= 0
  }

  /** The block at `p` is aligned, of a legal order and ends by frame `m`. */
  ghost predicate GoodBlock(order: seq<int>, p: nat, m: nat)
    requires IsHead(order, p)
  {
    order[p] <= MAX_ORDER && Aligned(p, order[p]) && p + Pow2(order[p]) <= m
  }

  ghost predicate InBlock(order: seq<int>, p: nat, q: nat)
    requires IsHead(order, p)
  {
    p <= q < p + Pow2(order[p])
  }

  /** The blocks tile the first `|owner|` frames: each frame lies in exactly one block. */
  ghost predicate Tiled(order: seq<int>, owner: seq<nat>) {
    && |owner| <= |order|
    && (forall p | IsHead(order, p) :: GoodBlock(order, p, |owner|))
    && (forall q | 0 <= q < |owner| :: IsHead(order, owner[q]) && InBlock(order, owner[q], q))
    && (forall p, q | IsHead(order, p) && 0 <= q < |owner| && InBlock(order, p, q) :: owner[q] == p)
  }

  /** Frames `lo` to `hi` handed to the block at `v`. */
  ghost function Reassign(owner: seq<nat>, lo: nat, hi: nat, v: nat): (r: seq<nat>)
    ensures |r| == |owner| && forall q | 0 <= q < |owner| :: r[q] == if lo <= q < hi then v else owner[q]
  {
    seq(|owner|, q requires 0 <= q < |owner| => if lo <= q < hi then v else owner[q])
  }

  /** The blocks by start, with their orders. */
  ghost function Blocks(order: seq<int>): map<nat, nat> {
    map p | 0 <= p < |order| && order[p] >= 0 :: order[p]
  }

  /** No two free buddies of the same order. */
  ghost predicate Coalesced(order: seq<int>, free: seq<bool>) {
    && |free| == |order|
    && forall p | IsHead(order, p) && free[p] :: !FreeBuddy(order, free, p, order[p])
  }

  ghost predicate FreeBuddy(order: seq<int>, free: seq<bool>, p: nat, k: nat)
    requires |free| == |order|
  {
    var b := Buddy(p, k);
    b < |order| && order[b] == k && free[b]
  }

  // ---------------------------------------------------------------- splitting and joining blocks

  lemma {:induction false} SplitTile(order: seq<int>, owner: seq<nat>, p: nat, k: nat)
    requires Tiled(order, owner) && IsHead(order, p) && order[p] == k + 1
    ensures var b := p + Pow2(k);
      && b < |owner| && !IsHead(order, b) && b != p && Buddy(p, k) == b && Buddy(b, k) == p
      && Tiled(order[p := k][b := k], Reassign(owner, b, b + Pow2(k), b))
  {
    hide Pow2, Aligned, Buddy;
    var b := p + Pow2(k);
    assert GoodBlock(order, p, |owner|);
    DoublePow2(k);
    Halves(p, k);
    assert owner[b] == p by { assert InBlock(order, p, b); }
    var o, w := order[p := k][b := k], Reassign(owner, b, b + Pow2(k), b);
    forall x | IsHead(o, x) ensures GoodBlock(o, x, |w|) {
      if x != p && x != b { assert IsHead(order, x) && GoodBlock(order, x, |owner|); }
    }
    forall q | 0 <= q < |w| ensures IsHead(o, w[q]) && InBlock(o, w[q], q) {
      assert InBlock(order, owner[q], q);
      if owner[q] != p && w[q] != b { assert owner[q] != b; }
    }
    forall x, q | IsHead(o, x) && 0 <= q < |w| && InBlock(o, x, q) ensures w[q] == x {
      if x == p || x == b { assert InBlock(order, p, q); } else { assert IsHead(order, x) && InBlock(order, x, q); }
    }
  }

  lemma {:induction false} DoublePow2(k: nat)
    ensures Pow2(k + 1) == 2 * Pow2(k)
  {
  }

  lemma {:induction false} JoinTile(order: seq<int>, owner: seq<nat>, p: nat, k: nat)
    requires Tiled(order, owner) && |owner| < Pow2(MAX_ORDER + 1)
    requires IsHead(order, p) && order[p] == k && IsHead(order, Buddy(p, k)) && order[Buddy(p, k)] == k
    ensures var lo, hi := Low(p, k), High(p, k);
      && lo < hi < |owner| && k < MAX_ORDER && Buddy(lo, k) == hi && Buddy(hi, k) == lo && IsHead(order, lo)
         && IsHead(order, hi)
      && Tiled(order[hi := INVALID_ORDER][lo := k + 1], Reassign(owner, hi, hi + Pow2(k), lo))
  {
    hide Pow2, Aligned, Buddy;
    var lo, hi := Low(p, k), High(p, k);
    assert GoodBlock(order, p, |owner|) && GoodBlock(order, Buddy(p, k), |owner|);
    DoublePow2(k);
    Joined(p, k);
    if k >= MAX_ORDER { Pow2Mono(MAX_ORDER + 1, k + 1); }
    var o, w := order[hi := INVALID_ORDER][lo := k + 1], Reassign(owner, hi, hi + Pow2(k), lo);
    forall x | IsHead(o, x) ensures GoodBlock(o, x, |w|) {
      if x != lo { assert IsHead(order, x) && GoodBlock(order, x, |owner|); }
    }
    forall q | 0 <= q < |w| ensures IsHead(o, w[q]) && InBlock(o, w[q], q) {
      assert IsHead(order, owner[q]) && InBlock(order, owner[q], q);
      if w[q] == lo && owner[q] != lo { assert hi <= q < hi + Pow2(k); }
    }
    forall x, q | IsHead(o, x) && 0 <= q < |w| && InBlock(o, x, q) ensures w[q] == x {
      if x == lo {
        if q < hi { assert InBlock(order, lo, q); }
      } else {
        assert IsHead(order, x) && InBlock(order, x, q) && owner[q] == x;
      }
    }
  }

  /** One more block behind the tiled frames. */
  lemma {:induction false} AppendTile(order: seq<int>, owner: seq<nat>, k: nat)
    requires Tiled(order, owner) && k <= MAX_ORDER && Aligned(|owner|, k) && |owner| + Pow2(k) <= |order|
    ensures Tiled(order[|owner| := k], owner + seq(Pow2(k), _ => |owner|))
  {
    hide Pow2, Aligned;
    var m := |owner|;
    var o, w := order[m := k], owner + seq(Pow2(k), _ => m);
    forall x | IsHead(o, x) ensures GoodBlock(o, x, |w|) {
      if x != m { assert IsHead(order, x) && GoodBlock(order, x, m); }
    }
    forall q | 0 <= q < |w| ensures IsHead(o, w[q]) && InBlock(o, w[q], q) {
      if q < m { assert IsHead(order, owner[q]) && InBlock(order, owner[q], q) && GoodBlock(order, owner[q], m); }
    }
    forall x, q | IsHead(o, x) && 0 <= q < |w| && InBlock(o, x, q) ensures w[q] == x {
      if x != m { assert IsHead(order, x) && GoodBlock(order, x, m) && InBlock(order, x, q); }
    }
  }

  // ---------------------------------------------------------------- the blocks of an empty system

  lemma {:induction false} BuddyIs(order: seq<int>, free: seq<bool>, p: nat, k: nat, b: nat)
    requires |free| == |order| && Buddy(p, k) == b && b < |order| && order[b] == k && free[b]
    ensures FreeBuddy(order, free, p, k)
  {
  }

  /** The blocks that `buddy_create` makes out of `c` frames from `s` on: largest first. */
  ghost function Canon(s: nat, c: nat): map<nat, nat>
    decreases c
  {
    if c == 0 then map[] else Canon(s + Pow2(TopOrder(c)), c - Pow2(TopOrder(c)))[s := TopOrder(c)]
  }

  function TopOrder(c: nat): (k: nat)
    requires c >= 1
    ensures k <= MAX_ORDER && Pow2(k) <= c
  {
    if Log2(c) > MAX_ORDER then (Pow2Mono(MAX_ORDER, Log2(c)); MAX_ORDER) else Log2(c)
  }

  lemma {:induction false} CanonCovers(s: nat, c: nat, x: nat) returns (y: nat)
    requires s <= x < s + c
    ensures y in Canon(s, c) && y <= x < y + Pow2(Canon(s, c)[y])
    decreases c
  {
    hide Canon, Pow2, TopOrder;
    CanonStep(s, c);
    var k := TopOrder(c);
    if x < s + Pow2(k) {
      y := s;
    } else {
      y := CanonCovers(s + Pow2(k), c - Pow2(k), x);
    }
  }

  lemma {:induction false} CanonBounds(s: nat, c: nat)
    ensures forall y | y in Canon(s, c) :: s <= y < s + c
    decreases c
  {
    hide Pow2, TopOrder, Log2;
    if c > 0 {
      CanonBounds(s + Pow2(TopOrder(c)), c - Pow2(TopOrder(c)));
    }
  }

  /** All blocks are free, and no two of them are buddies of the same order. */
  ghost predicate AllFree(order: seq<int>, owner: seq<nat>, free: seq<bool>) {
    && Tiled(order, owner) && |owner| == |order| && Coalesced(order, free)
    && forall p | IsHead(order, p) :: free[p]
  }

  /** In such a state an aligned region that no larger block contains is one block. */
  lemma {:induction false} Region(order: seq<int>, owner: seq<nat>, free: seq<bool>, s: nat, j: nat)
    requires AllFree(order, owner, free) && Aligned(s, j) && s + Pow2(j) <= |order|
    requires order[owner[s]] <= j
    ensures IsHead(order, s) && order[s] == j
    decreases j
  {
    hide Pow2, Aligned, Buddy, FreeBuddy, AllFree, Tiled;
    BlockAt(order, owner, free, s);
    var p := owner[s];
    Nested(p, order[p], s, j, s);
    if order[p] < j {
      var m := s + Pow2(j - 1);
      DoublePow2(j - 1);
      Halves(s, j - 1);
      BlockAt(order, owner, free, m);
      if order[owner[m]] >= j {
        Nested(s, j, owner[m], order[owner[m]], m);
        OwnerIs(order, owner, free, owner[m], s);
        assert false;
      }
      Region(order, owner, free, s, j - 1);
      Region(order, owner, free, m, j - 1);
      NotBuddies(order, owner, free, s, j - 1, m);
      assert false;
    }
  }

  lemma {:induction false} BlockAt(order: seq<int>, owner: seq<nat>, free: seq<bool>, q: nat)
    requires AllFree(order, owner, free) && q < |order|
    ensures q < |owner| && IsHead(order, owner[q]) && InBlock(order, owner[q], q) && GoodBlock(order, owner[q], |order|)
  {
  }

  lemma {:induction false} OwnerIs(order: seq<int>, owner: seq<nat>, free: seq<bool>, p: nat, q: nat)
    requires AllFree(order, owner, free) && IsHead(order, p) && q < |order| && InBlock(order, p, q)
    ensures q < |owner| && owner[q] == p
  {
  }

  lemma {:induction false} NotBuddies(order: seq<int>, owner: seq<nat>, free: seq<bool>, p: nat, k: nat, b: nat)
    requires AllFree(order, owner, free) && IsHead(order, p) && order[p] == k && Buddy(p, k) == b && IsHead(order, b)
    ensures order[b] != k
  {
  }

  lemma {:induction false} CanonStep(s: nat, c: nat)
    requires c > 0
    ensures var k := TopOrder(c);
      && Canon(s, c) == Canon(s + Pow2(k), c - Pow2(k))[s := k]
      && s !in Canon(s + Pow2(k), c - Pow2(k))
  {
    hide Pow2, TopOrder, Log2;
    CanonBounds(s + Pow2(TopOrder(c)), c - Pow2(TopOrder(c)));
  }

  lemma {:induction false} CanonHeads(order: seq<int>, owner: seq<nat>, free: seq<bool>, s: nat, c: nat, l: nat)
    requires AllFree(order, owner, free) && s + c == |order| && |order| < Pow2(MAX_ORDER + 1)
    requires Aligned(s, l) && c < Pow2(l)
    ensures forall y | y in Canon(s, c) :: IsHead(order, y) && order[y] == Canon(s, c)[y]
    decreases c
  {
    hide Aligned, Buddy, FreeBuddy, AllFree, Tiled, Pow2, Canon, Log2;
    if c > 0 {
      CanonStep(s, c);
      var k := TopOrder(c);
      assert k == Log2(c) by { if Log2(c) > MAX_ORDER { Pow2Mono(MAX_ORDER + 1, Log2(c)); } }
      if k >= l { Pow2Mono(l, k); }
      AlignedDown(s, k + 1, l);
      AlignedDown(s, k, l);
      DoublePow2(k);
      BlockAt(order, owner, free, s);
      if order[owner[s]] > k {
        Nested(s, k + 1, owner[s], order[owner[s]], s);
      }
      Region(order, owner, free, s, k);
      Halves(s, k);
      CanonHeads(order, owner, free, s + Pow2(k), c - Pow2(k), k);
    } else {
      CanonBounds(s, c);
    }
  }

  /** Once everything has been freed, the blocks are the ones the system was created with. */
  lemma {:induction false} AllFreeIsCanon(order: seq<int>, owner: seq<nat>, free: seq<bool>)
    requires AllFree(order, owner, free) && |order| < Pow2(MAX_ORDER + 1)
    ensures Blocks(order) == Canon(0, |order|)
  {
    hide Aligned, Buddy, FreeBuddy, Coalesced, Canon;
    var n := |order|;
    assert Aligned(0, MAX_ORDER + 1) by { ZeroAligned(MAX_ORDER + 1); }
    CanonHeads(order, owner, free, 0, n, MAX_ORDER + 1);
    forall x | IsHead(order, x) ensures x in Canon(0, n) {
      var y := CanonCovers(0, n, x);
      assert InBlock(order, y, x);
      assert InBlock(order, x, x);
    }
    CanonBounds(0, n);
  }

  lemma {:induction false} ZeroAligned(k: nat)
    ensures Aligned(0, k)
    decreases k
  {
    if k > 0 { ZeroAligned(k - 1); }
  }
}
