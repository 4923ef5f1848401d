/**
 The buddy allocator of mm/buddy.c over page frame numbers.

 The page map, the free lists, the counters and the bitmap are the fields of `BuddySystem`; a
 frame stands for the page `page_start + frame * PAGE_SIZE`.  The allocated blocks are those that
 start at a frame with a valid order and a clear `is_free` flag.
 */
module Buddy {
  import opened Dyadic
  import opened Lists
  import opened BuddyTiles
  import opened Wrappers

  /** Free list `k` holds exactly the free blocks of order `k`, apart from the block at `out`. */
  ghost predicate Filed(order: seq<int>, free: seq<bool>, lists: seq<seq<nat>>, out: int) {
    && |free| == |order| && |lists| == MAX_ORDER + 1
    && forall k | 0 <= k <= MAX_ORDER :: NoDup(lists[k]) && FiledAt(order, free, lists[k], k, out)
  }

  ghost predicate FiledAt(order: seq<int>, free: seq<bool>, list: seq<nat>, k: nat, out: int)
    requires |free| == |order|
  {
    forall x: nat :: x in list <==> x < |order| && x != out && order[x] == k && free[x]
  }

  /** The counters and the bitmap agree with the lists. */
  ghost predicate Counted(lists: seq<seq<nat>>, count: seq<nat>, bitmap: seq<bool>) {
    && |lists| == |count| == |bitmap| == MAX_ORDER + 1
    && forall k | 0 <= k <= MAX_ORDER :: count[k] == |lists[k]| && (bitmap[k] <==> lists[k] != [])
  }

  /** The allocated blocks, with their orders. */
  ghost function Allocated(order: seq<int>, free: seq<bool>): map<nat, nat>
    requires |free| == |order|
  {
    map p | 0 <= p < |order| && order[p] >= 0 && !free[p] :: order[p]
  }

  /** The smallest order of at least `k` whose bit is set; `buddy_ffs_sizet(bitmap & (~0UL << k))`. */
  function FirstSet(bitmap: seq<bool>, k: nat): (r: Option<nat>)
    ensures r.Some? ==> k <= r.value < |bitmap| && bitmap[r.value] && forall j | k <= j < r.value :: !bitmap[j]
    ensures r.None? ==> forall j | k <= j < |bitmap| :: !bitmap[j]
    decreases |bitmap| - k
  {
    if k >= |bitmap| then None else if bitmap[k] then Some(k) else FirstSet(bitmap, k + 1)
  }

  /** The order `buddy_alloc_page` asks for. */
  function RequestOrder(count: nat): nat
    requires count >= 1
  {
    Log2(count + (Pow2(Log2(count)) - 1))
  }

  /** It is the smallest order whose blocks hold `count` pages. */
  lemma {:induction false} RequestOrderFits(count: nat, k: nat)
    requires count >= 1
    ensures RequestOrder(count) <= k <==> count <= Pow2(k)
  {
    hide Pow2, Log2;
    var l := Log2(count);
    var r := RequestOrder(count);
    DoublePow2(l);
    if count == Pow2(l) {
      Log2Unique(count + (Pow2(l) - 1), l);
    } else {
      DoublePow2(l + 1);
      Log2Unique(count + (Pow2(l) - 1), l + 1);
    }
    if r <= k { Pow2Mono(r, k); } else { Pow2Mono(k, r - 1); }
    if k < l { Pow2Mono(k, l); Pow2Mono(k + 1, l); } else { Pow2Mono(l, k); }
    if k > l { Pow2Mono(l + 1, k); }
  }

  class BuddySystem {
    /** `map[i].order` and `map[i].flags.is_free` */
    var order: seq<int>
    var free: seq<bool>
    /** `page_buddy`, `count` and `bitmap` */
    var lists: seq<seq<nat>>
    var count: seq<nat>
    var bitmap: seq<bool>
    /** The start of the block each frame belongs to. */
    ghost var owner: seq<nat>

    /** All that holds between operations, whatever the number of frames. */
    ghost predicate Consistent()
      reads this
    {
      && |owner| == |order| == |free| && Tiled(order, owner)
      && Filed(order, free, lists, -1) && Counted(lists, count, bitmap)
    }

    ghost predicate Valid()
      reads this
    {
      && |order| < Pow2(MAX_ORDER + 1)
      && Consistent()
      && Coalesced(order, free)
    }

    ghost function Live(): map<nat, nat>
      reads this
      requires |free| == |order|
    {
      Allocated(order, free)
    }

    /** No free block holds `n` pages. */
    ghost predicate Exhausted(n: nat)
      reads this
    {
      forall x | IsHead(order, x) && x < |free| && free[x] :: n > Pow2(order[x])
    }

    /** `buddy_add_page` */
    method AddPage(p: nat)
      requires p < |order| && 0 <= order[p] <= MAX_ORDER
      requires Filed(order, free, lists, p) && Counted(lists, count, bitmap)
      modifies this`free, this`lists, this`count, this`bitmap
      ensures free == old(free)[p := true]
      ensures Filed(order, free, lists, -1) && Counted(lists, count, bitmap)
    {
      var k := order[p];
      AddFiles(order, free, lists, p);
      free := free[p := true];
      lists := lists[k := lists[k] + [p]];
      bitmap := bitmap[k := true];
      count := count[k := count[k] + 1];
    }

    /** `buddy_del_page` */
    method DelPage(p: nat)
      requires p < |order| && 0 <= order[p] <= MAX_ORDER && |free| == |order| && free[p]
      requires Filed(order, free, lists, -1) && Counted(lists, count, bitmap)
      modifies this`free, this`lists, this`count, this`bitmap
      ensures free == old(free)[p := false]
      ensures Filed(order, free, lists, p) && Filed(order, free, lists, -1) && Counted(lists, count, bitmap)
    {
      var k := order[p];
      DelFiles(order, free, lists, p);
      lists := lists[k := Without(lists[k], p)];
      free := free[p := false];
      if lists[k] == [] {
        bitmap := bitmap[k := false];
      }
      count := count[k := count[k] - 1];
    }

    /** `buddy_locate_free`: a free block of the smallest order that will do. */
    method LocateFree(k: nat) returns (r: Option<nat>)
      requires k <= MAX_ORDER && Consistent()
      ensures r.None? ==> forall x | IsHead(order, x) && free[x] :: order[x] < k
      ensures r.Some? ==>
        && IsHead(order, r.value) && free[r.value] && order[r.value] >= k
        && forall x | IsHead(order, x) && free[x] && order[x] >= k :: order[x] >= order[r.value]
    {
      hide Tiled, Counted;
      CountedAt(lists, count, bitmap);
      var k' := k;
      if lists[k] == [] {
        var first := FirstSet(bitmap, k);
        if first.None? {
          forall x | IsHead(order, x) && free[x] ensures order[x] < k { FiledIn(order, free, lists, owner, x); }
          return None;
        }
        k' := first.value;
      }
      var p := lists[k'][|lists[k']| - 1];
      assert p in lists[k'];
      forall x | IsHead(order, x) && free[x]
        && order[x] >= k ensures order[x] >= k' { FiledIn(order, free, lists, owner, x); }
      r := Some(p);
    }

    /** `page_split`: the upper halves of the block at `p` become free blocks of their own. */
    method Split(p: nat, k: nat)
      requires Valid() && IsHead(order, p) && !free[p] && order[p] > k
      modifies this
      ensures Valid() && |order| == |old(order)|
      ensures Live() == old(Live())[p := k]
    {
      hide Tiled, Filed, Coalesced, Counted, Pow2, Allocated;
      HeadBounds(order, owner, p);
      SeqSame(order, p);
      AllocatedSame(order, free, p);
      var i := order[p];
      while i > k
        invariant k <= i <= MAX_ORDER && p < |order| == |old(order)| && order[p] == old(order[p])
          && |owner| == |order| == |free|
        invariant Tiled(order[p := i], owner) && Coalesced(order[p := i], free) && !free[p]
        invariant Filed(order, free, lists, -1) && Counted(lists, count, bitmap)
        invariant Allocated(order[p := i], free) == old(Live())[p := i]
      {
        var new_ := i - 1;
        var buddy := p + Pow2(new_);
        SplitTile(order[p := i], owner, p, new_);
        SplitKeeps(order, owner, free, lists, p, i, buddy);
        order := order[buddy := new_];
        AddPage(buddy);
        owner := Reassign(owner, buddy, buddy + Pow2(new_), buddy);
        i := new_;
      }
      FiledSame(order, free, lists, p, k);
      order := order[p := k];
    }

    /** `page_merge`: the block at `p` joined with free buddies as long as there are any. */
    method Merge(p: nat) returns (q: nat)
      requires Valid() && IsHead(order, p) && !free[p]
      modifies this
      ensures Valid() && |order| == |old(order)| && IsHead(order, q) && !free[q] && order[q] <= MAX_ORDER
      ensures !FreeBuddy(order, free, q, order[q])
      ensures Live() == (old(Live()) - {p})[q := order[q]] && q !in old(Live()) - {p}
    {
      hide Tiled, Filed, Coalesced, Counted, Pow2, Allocated, Buddy, Low, High;
      HeadBounds(order, owner, p);
      SeqSame(order, p);
      AllocatedFirst(order, free, p);
      var k := order[p];
      q := p;
      while k <= MAX_ORDER
        invariant k <= MAX_ORDER && q < |order| == |old(order)| && |owner| == |order| == |free|
        invariant Tiled(order[q := k], owner) && Coalesced(order[q := k], free) && !free[q]
        invariant Filed(order, free, lists, -1) && Counted(lists, count, bitmap)
        invariant Allocated(order[q := k], free) == (old(Live()) - {p})[q := k] && q !in old(Live()) - {p}
        decreases MAX_ORDER - k
      {
        BuddyApart(order[q := k], owner, q);
        var buddy := Dyadic.Buddy(q, k);
        if buddy >= |order| || order[buddy] != k || !free[buddy] {
          break;
        }
        JoinTile(order[q := k], owner, q, k);
        JoinKeeps(order, owner, free, q, k, old(Live()) - {p});
        DelPage(buddy);
        var lo, hi := Low(q, k), High(q, k);
        FiledSame(order, free, lists, hi, INVALID_ORDER);
        order := order[hi := INVALID_ORDER];
        owner := Reassign(owner, hi, hi + Pow2(k), lo);
        q, k := lo, k + 1;
      }
      NoFreeBuddy(order, free, q, k);
      FiledSame(order, free, lists, q, k);
      order := order[q := k];
    }

    /** `buddy_alloc_page`: a block of the smallest order that holds `pages` pages. */
    method AllocPage(pages: nat) returns (r: Option<nat>)
      requires Valid() && pages <= Pow2(MAX_ORDER)
      modifies this
      ensures Valid() && |free| == |order| == |old(order)|
      ensures r.None? ==> unchanged(this)
      ensures r.None? <==> pages == 0 || old(Exhausted(pages))
      ensures r.Some? ==>
        var p, k := r.value, RequestOrder(pages);
        && p !in old(Live()) && Live() == old(Live())[p := k]
        && old(IsHead(order, p)) && old(free[p]) && old(order[p]) >= k
        && forall x | old(IsHead(order, x)) && old(free[x]) && old(order[x]) >= k :: old(order[x]) >= old(order[p])
    {
      hide Tiled, Filed, Coalesced, Counted, Pow2, Allocated, RequestOrder, FreeBuddy, Log2;
      if pages == 0 {
        return None;
      }
      var k := RequestOrder(pages);
      RequestOrderFits(pages, MAX_ORDER);
      forall j: nat ensures k <= j <==> pages <= Pow2(j) { RequestOrderFits(pages, j); }
      r := LocateFree(k);
      if r.Some? {
        var p := r.value;
        UseBlock(order, free, p);
        HeadBounds(order, owner, p);
        DelPage(p);
        if order[p] > k {
          Split(p, k);
        }
      }
    }

    /** `buddy_free_page`; a block that is free already is left alone. */
    method FreePage(p: nat)
      requires Valid() && IsHead(order, p)
      modifies this
      ensures Valid() && |free| == |order| == |old(order)|
      ensures old(free[p]) ==> unchanged(this)
      ensures !old(free[p]) ==> p in old(Live()) && Live() == old(Live()) - {p}
    {
      hide Tiled, Filed, Coalesced, Counted, Pow2, Allocated;
      if free[p] {
        return;
      }
      AllocatedAt(order, free, p);
      var q := Merge(p);
      HeadBounds(order, owner, q);
      FreeBlock(order, owner, free, lists, q);
      AddPage(q);
    }

    /** `buddy_create`, over frames whose flags may hold anything. */
    constructor (flags: seq<bool>)
      ensures |free| == |order| == |flags| && Consistent() && Live() == map[] && Blocks(order) == Canon(0, |flags|)
      ensures Valid() <==> |flags| < Pow2(MAX_ORDER + 1)
    {
      var n := |flags|;
      order := seq(n, _ => INVALID_ORDER);
      free := flags;
      lists, count, bitmap := seq(MAX_ORDER + 1, _ => []), seq(MAX_ORDER + 1, _ => 0), seq(MAX_ORDER + 1, _ => false);
      owner := [];
      new;
      EmptyMap(order, free, lists, count, bitmap);
      Populate();
      CanonCoalesced(order, free);
    }

    /** The loop of `buddy_create`: the frames cut into free blocks, largest first. */
    method Populate()
      requires owner == [] && |free| == |order| && Consistent0(order, owner, free, lists, count, bitmap)
      requires Blocks(order) == map[]
      modifies this
      ensures |order| == |old(order)| && Consistent() && Live() == map[] && Blocks(order) == Canon(0, |order|)
    {
      hide Tiled, Filed, Counted, Pow2, Allocated, Canon, Blocks, Log2, Aligned;
      ghost var n := |order|;
      var i: nat, c: nat := 0, |order|;
      forall j ensures Aligned(0, j) { ZeroAligned(j); }
      while c > 0
        invariant 0 <= c && i + c == n == |order| == |free| && |owner| == i
        invariant PlaceFits(i, c)
        invariant Tiled(order, owner) && Filed(order, free, lists, -1) && Counted(lists, count, bitmap)
        invariant Allocated(order, free) == map[] && Blocks(order) + Canon(i, c) == Canon(0, n)
        decreases c
      {
        var k := TopOrder(c);
        CreateStep(order, owner, free, lists, i, c);
        AppendTile(order, owner, k);
        order := order[i := k];
        AddPage(i);
        owner := owner + seq(Pow2(k), _ => i);
        i, c := i + Pow2(k), c - Pow2(k);
      }
      CanonEnd(i, Blocks(order));
    }
  }

  // ---------------------------------------------------------------- creation as values

  ghost predicate Consistent0(order: seq<int>, owner: seq<nat>, free: seq<bool>, lists: seq<seq<nat>>,
                              count: seq<nat>, bitmap: seq<bool>)
    requires |free| == |order|
  {
    Tiled(order, owner) && Filed(order, free, lists, -1) && Counted(lists, count, bitmap)
      && Allocated(order, free) == map[]
  }

  lemma {:induction false} EmptyMap(order: seq<int>, free: seq<bool>, lists: seq<seq<nat>>, count: seq<nat>,
                                    bitmap: seq<bool>)
    requires |free| == |order| && (forall x | 0 <= x < |order| :: order[x] == INVALID_ORDER)
    requires |lists| == |count| == |bitmap| == MAX_ORDER + 1
    requires forall k | 0 <= k <= MAX_ORDER :: lists[k] == [] && count[k] == 0 && !bitmap[k]
    ensures Consistent0(order, [], free, lists, count, bitmap) && Blocks(order) == map[]
  {
    forall k | 0 <= k <= MAX_ORDER ensures FiledAt(order, free, lists[k], k, -1) { }
    assert forall p :: !IsHead(order, p);
  }

  /** The place `i` is aligned for every block that the remaining `c` frames can hold. */
  ghost predicate PlaceFits(i: nat, c: nat) {
    forall j: nat | j <= MAX_ORDER && Pow2(j) <= c :: Aligned(i, j)
  }

  lemma {:induction false} PlaceNext(i: nat, c: nat)
    requires c > 0 && PlaceFits(i, c)
    ensures var k := TopOrder(c); Aligned(i, k) && PlaceFits(i + Pow2(k), c - Pow2(k))
  {
    hide Pow2, Aligned;
    var k := TopOrder(c);
    forall j: nat | j <= MAX_ORDER && Pow2(j) <= c - Pow2(k) ensures Aligned(i + Pow2(k), j) {
      if j > k { DoublePow2(k); Pow2Mono(k + 1, j); }
      Pow2Aligned(j, k);
      AlignedSum(i, Pow2(k), j);
    }
  }

  lemma {:induction false} CreateStep(order: seq<int>, owner: seq<nat>, free: seq<bool>, lists: seq<seq<nat>>, i: nat,
                                      c: nat)
    requires c > 0 && PlaceFits(i, c) && Tiled(order, owner) && |owner| == i && |free| == |order| == i + c
    requires Filed(order, free, lists, -1) && Allocated(order, free) == map[]
    ensures var k := TopOrder(c);
      && Aligned(i, k) && PlaceFits(i + Pow2(k), c - Pow2(k))
      && Filed(order[i := k], free, lists, i) && Allocated(order[i := k], free[i := true]) == map[]
      && Blocks(order[i := k]) + Canon(i + Pow2(k), c - Pow2(k)) == Blocks(order) + Canon(i, c)
  {
    hide Pow2, Aligned, PlaceFits, Filed, Canon, TopOrder;
    var k := TopOrder(c);
    PlaceNext(i, c);
    BehindTiles(order, owner, i);
    FiledNew(order, free, lists, i, k);
    CanonStep(i, c);
    assert Blocks(order[i := k]) == Blocks(order)[i := k];
    assert Allocated(order[i := k], free[i := true]) == Allocated(order, free);
  }

  lemma {:induction false} BehindTiles(order: seq<int>, owner: seq<nat>, i: nat)
    requires Tiled(order, owner) && |owner| <= i < |order|
    ensures order[i] < 0
  {
    hide Tiled;
    if IsHead(order, i) {
      HeadBounds(order, owner, i);
      assert false;
    }
  }

  lemma {:induction false} CanonEnd(i: nat, m: map<nat, nat>)
    ensures m + Canon(i, 0) == m
  {
  }

  /** All orders are below `l`, and no two blocks have the same order. */
  lemma {:induction false} CanonOrders(s: nat, c: nat, l: nat)
    requires c < Pow2(l) && l <= MAX_ORDER + 1
    ensures forall x | x in Canon(s, c) :: Canon(s, c)[x] < l
    ensures forall x, y | x in Canon(s, c) && y in Canon(s, c) && x != y :: Canon(s, c)[x] != Canon(s, c)[y]
    decreases c
  {
    hide Pow2, Canon, Log2;
    if c > 0 {
      CanonStep(s, c);
      var k := TopOrder(c);
      if Log2(c) >= l { Pow2Mono(l, Log2(c)); }
      DoublePow2(k);
      CanonOrders(s + Pow2(k), c - Pow2(k), k);
    } else {
      CanonBounds(s, 0);
    }
  }

  /** The blocks of a new system are free of buddies exactly when two largest blocks do not fit. */
  lemma {:induction false} CanonCoalesced(order: seq<int>, free: seq<bool>)
    requires |free| == |order| && Blocks(order) == Canon(0, |order|) && Allocated(order, free) == map[]
    ensures Coalesced(order, free) <==> |order| < Pow2(MAX_ORDER + 1)
  {
    hide Pow2, Canon, Buddy, Allocated, Blocks, Aligned, TopOrder;
    var n := |order|;
    if n < Pow2(MAX_ORDER + 1) {
      CanonOrders(0, n, MAX_ORDER + 1);
      forall p | IsHead(order, p) && free[p] ensures !FreeBuddy(order, free, p, order[p]) {
        CanonNoBuddy(order, free, p);
      }
    } else {
      var h := Pow2(MAX_ORDER);
      DoublePow2(MAX_ORDER);
      LargestFirst(0, n);
      LargestFirst(h, n - h);
      BlockIs(order, free, 0, MAX_ORDER);
      BlockIs(order, free, h, MAX_ORDER);
      ZeroAligned(MAX_ORDER + 1);
      Halves(0, MAX_ORDER);
      BuddyIs(order, free, 0, MAX_ORDER, h);
    }
  }

  lemma {:induction false} LargestFirst(s: nat, c: nat)
    requires c >= Pow2(MAX_ORDER)
    ensures s in Canon(s, c) && Canon(s, c)[s] == MAX_ORDER
    ensures forall x | x in Canon(s + Pow2(MAX_ORDER), c - Pow2(MAX_ORDER)) ::
      x in Canon(s, c) && Canon(s, c)[x] == Canon(s + Pow2(MAX_ORDER), c - Pow2(MAX_ORDER))[x]
  {
    hide Pow2, Canon, Log2;
    if Log2(c) < MAX_ORDER { Pow2Mono(Log2(c) + 1, MAX_ORDER); }
    CanonStep(s, c);
  }

  lemma {:induction false} BlockIs(order: seq<int>, free: seq<bool>, p: nat, k: nat)
    requires |free| == |order| && Allocated(order, free) == map[] && p in Blocks(order) && Blocks(order)[p] == k
    ensures IsHead(order, p) && order[p] == k && free[p]
  {
    AllocatedAt(order, free, p);
  }

  lemma {:induction false} CanonNoBuddy(order: seq<int>, free: seq<bool>, p: nat)
    requires |free| == |order| && Blocks(order) == Canon(0, |order|) && IsHead(order, p)
    requires forall x, y | x in Canon(0, |order|) && y in Canon(0, |order|)
      && x != y :: Canon(0, |order|)[x] != Canon(0, |order|)[y]
    ensures !FreeBuddy(order, free, p, order[p])
  {
    hide Pow2, Canon, Buddy;
    BuddyDiffers(p, order[p]);
    BlocksAt(order, p);
    BlocksAt(order, Buddy(p, order[p]));
  }

  lemma {:induction false} BlocksAt(order: seq<int>, p: nat)
    ensures IsHead(order, p) ==> p in Blocks(order) && Blocks(order)[p] == order[p]
  {
  }

  lemma {:induction false} BuddyDiffers(p: nat, k: nat)
    ensures Buddy(p, k) != p
    decreases k
  {
    if k > 0 { BuddyDiffers(p / 2, k - 1); }
  }

  // ---------------------------------------------------------------- what every state promises

  /** Allocated blocks lie inside the frames, are aligned and share no frame. */
  lemma {:induction false} LiveDisjoint(s: BuddySystem, p: nat, q: nat)
    requires s.Valid() && p in s.Live()
    ensures (exists m: nat :: p == m * Pow2(s.Live()[p])) && p + Pow2(s.Live()[p]) <= |s.order|
    ensures q in s.Live() && p < q ==> p + Pow2(s.Live()[p]) <= q
  {
    hide Pow2, Aligned;
    AlignedMultiple(p, s.Live()[p]);
    assert IsHead(s.order, p) && GoodBlock(s.order, p, |s.owner|);
    if q in s.Live() {
      assert IsHead(s.order, q) && GoodBlock(s.order, q, |s.owner|);
      assert InBlock(s.order, q, q) && s.owner[q] == q;
      assert InBlock(s.order, p, q) ==> s.owner[q] == p;
    }
  }

  /** With nothing allocated, the free lists hold exactly the blocks the system was created with. */
  lemma {:induction false} EmptyIsInitial(s: BuddySystem)
    requires s.Valid() && s.Live() == map[]
    ensures Blocks(s.order) == Canon(0, |s.order|)
    ensures forall k: nat, p: nat | k <= MAX_ORDER ::
      p in s.lists[k] <==> p in Canon(0, |s.order|) && Canon(0, |s.order|)[p] == k
  {
    hide Pow2, Canon, Aligned, Coalesced, Tiled;
    forall p | IsHead(s.order, p) ensures s.free[p] {
      AllocatedAt(s.order, s.free, p);
    }
    AllFreeIsCanon(s.order, s.owner, s.free);
    forall k: nat, p: nat | k <= MAX_ORDER
      ensures p in s.lists[k] <==> p in Blocks(s.order) && Blocks(s.order)[p] == k {
      assert FiledAt(s.order, s.free, s.lists[k], k, -1);
      if p in Blocks(s.order) { assert IsHead(s.order, p); }
    }
  }

  // ---------------------------------------------------------------- splitting and merging as values

  lemma {:induction false} HeadBounds(order: seq<int>, owner: seq<nat>, p: nat)
    requires Tiled(order, owner) && IsHead(order, p)
    ensures order[p] <= MAX_ORDER && p < |owner| && Aligned(p, order[p])
  {
    assert GoodBlock(order, p, |owner|);
  }

  lemma {:induction false} SeqSame(order: seq<int>, p: nat)
    requires p < |order|
    ensures order[p := order[p]] == order
  {
  }

  lemma {:induction false} AllocatedSame(order: seq<int>, free: seq<bool>, p: nat)
    requires |free| == |order| && IsHead(order, p) && !free[p]
    ensures Allocated(order, free) == Allocated(order, free)[p := order[p]]
  {
  }

  lemma {:induction false} AllocatedFirst(order: seq<int>, free: seq<bool>, p: nat)
    requires |free| == |order| && IsHead(order, p) && !free[p]
    ensures Allocated(order, free) == (Allocated(order, free) - {p})[p := order[p]]
  {
  }

  /** The order of a block that is not free does not matter to the lists. */
  lemma {:induction false} FiledSame(order: seq<int>, free: seq<bool>, lists: seq<seq<nat>>, p: nat, k: int)
    requires p < |order| && Filed(order, free, lists, -1) && !free[p]
    ensures Filed(order[p := k], free, lists, -1)
  {
    forall j | 0 <= j <= MAX_ORDER ensures FiledAt(order[p := k], free, lists[j], j, -1) {
      assert FiledAt(order, free, lists[j], j, -1);
    }
  }

  /** A frame where no block starts is on no list, whatever its flags say. */
  lemma {:induction false} FiledNew(order: seq<int>, free: seq<bool>, lists: seq<seq<nat>>, b: nat, k: nat)
    requires b < |order| && order[b] < 0 && Filed(order, free, lists, -1)
    ensures Filed(order[b := k], free, lists, b)
  {
    forall j | 0 <= j <= MAX_ORDER ensures FiledAt(order[b := k], free, lists[j], j, b) {
      assert FiledAt(order, free, lists[j], j, -1);
    }
  }

  lemma {:induction false} SplitKeeps(order: seq<int>, owner: seq<nat>, free: seq<bool>, lists: seq<seq<nat>>, p: nat,
                                      i: nat, b: nat)
    requires p < |order| && 0 < i && b < |order| && b != p && order[b] < 0 && |free| == |order| && !free[p]
    requires Buddy(p, i - 1) == b && Buddy(b, i - 1) == p
    requires Tiled(order[p := i], owner) && Coalesced(order[p := i], free) && Filed(order, free, lists, -1)
    ensures Filed(order[b := i - 1], free, lists, b)
    ensures order[p := i][p := i - 1][b := i - 1] == order[b := i - 1][p := i - 1]
    ensures Coalesced(order[b := i - 1][p := i - 1], free[b := true])
    ensures Allocated(order[b := i - 1][p := i - 1], free[b := true]) == Allocated(order[p := i], free)[p := i - 1]
  {
    hide Tiled, Filed, Buddy;
    FiledNew(order, free, lists, b, i - 1);
    var o, o', f' := order[p := i], order[b := i - 1][p := i - 1], free[b := true];
    forall x | IsHead(o', x) && f'[x] ensures !FreeBuddy(o', f', x, o'[x]) {
      if x != b {
        assert IsHead(o, x) && o[x] == o'[x] && !FreeBuddy(o, free, x, o[x]);
        HeadBounds(o, owner, x);
        Joined(x, o[x]);
      }
    }
  }

  lemma {:induction false} BuddyApart(order: seq<int>, owner: seq<nat>, q: nat)
    requires Tiled(order, owner) && IsHead(order, q)
    ensures Buddy(q, order[q]) != q
  {
    HeadBounds(order, owner, q);
    Joined(q, order[q]);
  }

  lemma {:induction false} JoinKeeps(order: seq<int>, owner: seq<nat>, free: seq<bool>, q: nat, k: nat,
                                     live: map<nat, nat>)
    requires q < |order| && |free| == |order| && !free[q] && Coalesced(order[q := k], free)
    requires var b := Buddy(q, k); b < |order| && b != q && order[b] == k && free[b]
    requires Allocated(order[q := k], free) == live[q := k] && q !in live
    ensures var b, lo, hi := Buddy(q, k), Low(q, k), High(q, k);
      && ((lo == q && hi == b) || (lo == b && hi == q)) && lo < |order| && hi < |order| && lo !in live
         && order[q := k][hi := INVALID_ORDER][lo := k + 1] == order[hi := INVALID_ORDER][lo := k + 1]
      && Coalesced(order[hi := INVALID_ORDER][lo := k + 1], free[b := false])
      && Allocated(order[hi := INVALID_ORDER][lo := k + 1], free[b := false]) == live[lo := k + 1]
  {
    hide Buddy;
    var b, lo, hi := Buddy(q, k), Low(q, k), High(q, k);
    assert (lo == q && hi == b) || (lo == b && hi == q);
    var o, o', f' := order[q := k], order[hi := INVALID_ORDER][lo := k + 1], free[b := false];
    assert o[hi := INVALID_ORDER][lo := k + 1] == o';
    forall x | IsHead(o', x) && f'[x] ensures !FreeBuddy(o', f', x, o'[x]) {
      assert IsHead(o, x) && o[x] == o'[x] && !FreeBuddy(o, free, x, o[x]);
    }
    assert b !in Allocated(o, free) && b !in live;
    var a, a', l := Allocated(o, free), Allocated(o', f'), live[lo := k + 1];
    forall x ensures x in a' <==> x in l {
      if x != q && x != b { assert x in a <==> x in a'; }
    }
    forall x | x in a' ensures a'[x] == l[x] {
      if x != lo { assert x in a && a[x] == a'[x]; }
    }
  }

  lemma {:induction false} NoFreeBuddy(order: seq<int>, free: seq<bool>, q: nat, k: nat)
    requires q < |order| && |free| == |order|
    requires var b := Buddy(q, k); b != q && (b >= |order| || order[b] != k || !free[b])
    ensures !FreeBuddy(order[q := k], free, q, k)
  {
  }

  lemma {:induction false} CountedAt(lists: seq<seq<nat>>, count: seq<nat>, bitmap: seq<bool>)
    requires Counted(lists, count, bitmap)
    ensures |bitmap| == |lists| == MAX_ORDER + 1 && forall k | 0 <= k <= MAX_ORDER :: bitmap[k] <==> lists[k] != []
  {
  }

  lemma {:induction false} FiledIn(order: seq<int>, free: seq<bool>, lists: seq<seq<nat>>, owner: seq<nat>, x: nat)
    requires Tiled(order, owner) && Filed(order, free, lists, -1) && IsHead(order, x) && free[x]
    ensures order[x] <= MAX_ORDER && x in lists[order[x]] && lists[order[x]] != []
  {
    assert GoodBlock(order, x, |owner|);
    assert FiledAt(order, free, lists[order[x]], order[x], -1);
  }

  lemma {:induction false} AddFiles(order: seq<int>, free: seq<bool>, lists: seq<seq<nat>>, p: nat)
    requires p < |order| && 0 <= order[p] <= MAX_ORDER && Filed(order, free, lists, p)
    ensures var k := order[p]; Filed(order, free[p := true], lists[k := lists[k] + [p]], -1)
  {
    var k0 := order[p];
    var f, l := free[p := true], lists[k0 := lists[k0] + [p]];
    forall k | 0 <= k <= MAX_ORDER ensures NoDup(l[k]) && FiledAt(order, f, l[k], k, -1) {
      assert NoDup(lists[k]) && FiledAt(order, free, lists[k], k, p);
      if k == k0 {
        NoDupAdd(lists[k], p);
        assert forall x :: x in l[k] <==> x in lists[k] || x == p;
      }
    }
  }

  lemma {:induction false} DelFiles(order: seq<int>, free: seq<bool>, lists: seq<seq<nat>>, p: nat)
    requires p < |order| && 0 <= order[p] <= MAX_ORDER && |free| == |order| && free[p] && Filed(order, free, lists, -1)
    ensures var k := order[p];
      && p in lists[k] && |Without(lists[k], p)| == |lists[k]| - 1
      && Filed(order, free[p := false], lists[k := Without(lists[k], p)], p)
      && Filed(order, free[p := false], lists[k := Without(lists[k], p)], -1)
  {
    var k0 := order[p];
    var f, l := free[p := false], lists[k0 := Without(lists[k0], p)];
    assert NoDup(lists[k0]) && FiledAt(order, free, lists[k0], k0, -1);
    WithoutMembers(lists[k0], p);
    forall k | 0 <= k <= MAX_ORDER
      ensures NoDup(l[k]) && FiledAt(order, f, l[k], k, p) && FiledAt(order, f, l[k], k, -1) {
      assert NoDup(lists[k]) && FiledAt(order, free, lists[k], k, -1);
    }
  }

  /** A free block taken out of the lists. */
  lemma {:induction false} UseBlock(order: seq<int>, free: seq<bool>, p: nat)
    requires |free| == |order| && IsHead(order, p) && free[p] && Coalesced(order, free)
    ensures Coalesced(order, free[p := false]) && p !in Allocated(order, free)
    ensures Allocated(order, free[p := false]) == Allocated(order, free)[p := order[p]]
  {
    hide Buddy;
    var f := free[p := false];
    forall x | IsHead(order, x) && f[x] ensures !FreeBuddy(order, f, x, order[x]) {
      assert !FreeBuddy(order, free, x, order[x]);
    }
  }

  lemma {:induction false} AllocatedAt(order: seq<int>, free: seq<bool>, p: nat)
    requires |free| == |order| && IsHead(order, p)
    ensures p in Allocated(order, free) <==> !free[p]
  {
  }

  /** A block without a free buddy put on its list. */
  lemma {:induction false} FreeBlock(order: seq<int>, owner: seq<nat>, free: seq<bool>, lists: seq<seq<nat>>, q: nat)
    requires Tiled(order, owner) && Filed(order, free, lists, -1) && Coalesced(order, free)
    requires IsHead(order, q) && !free[q] && !FreeBuddy(order, free, q, order[q])
    ensures Filed(order, free, lists, q) && Coalesced(order, free[q := true])
    ensures Allocated(order, free[q := true]) == Allocated(order, free) - {q}
  {
    hide Buddy, Tiled;
    var f := free[q := true];
    forall k | 0 <= k <= MAX_ORDER ensures FiledAt(order, free, lists[k], k, q) {
      assert FiledAt(order, free, lists[k], k, -1);
    }
    HeadBounds(order, owner, q);
    Joined(q, order[q]);
    forall x | IsHead(order, x) && f[x] ensures !FreeBuddy(order, f, x, order[x]) {
      if x != q {
        assert !FreeBuddy(order, free, x, order[x]);
        HeadBounds(order, owner, x);
        Joined(x, order[x]);
      }
    }
  }
}
