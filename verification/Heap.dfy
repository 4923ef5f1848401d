/**
 The heap of mm/mem_pool.c and mm/kalloc.c on top of the buddy allocator: small requests are served
 from pages cut into blocks of one size class, large ones by whole pages, and a pointer is given
 back by its alignment.

 Addresses count from the first frame of the buddy allocator, which is aligned to a page.
 */
module Heap {
  import opened Lists
  import opened SizeClasses
  import opened Wrappers
  import Buddy
  import BuddyTiles
  import Dyadic

  /** `mem_pool_header_t` */
  datatype Page = Page(pool: Class, freeCount: nat)

  type Pages = map<nat, Page>
  type FreeLists = map<Class, seq<nat>>
  type Live = map<nat, Class>
  /** Runs of pages in use, by their first page */
  type Runs = map<nat, nat>

  // ---------------------------------------------------------------- blocks

  function Count(c: Class): nat
    requires ClassSize(c) > 0
  {
    (PAGE_SIZE - HEADER) / ClassSize(c)
  }

  /** The address of a block of a page */
  function At(pg: nat, c: Class, k: nat): nat {
    pg * PAGE_SIZE + HEADER + ClassSize(c) * k
  }

  lemma {:induction false} SizeRange(c: Class)
    requires ClassOk(c)
    ensures MIN_SIZE <= ClassSize(c) <= MAX_SIZE
  {
    hide ClassOk, ClassSize, Dyadic.Pow2;
    ClassTable(c);
    Powers();
    var f := c.f;
    assert f == 0 || f == 1 || f == 2 || f == 3 || f == 4 || f == 5 || f == 6 || f == 7;
  }

  /** A block lies within its page, behind the header; so it is never aligned to a page. */
  lemma {:induction false} BlockFacts(pg: nat, c: Class, k: nat)
    requires ClassOk(c) && ClassSize(c) > 0 && k < Count(c)
    ensures At(pg, c, k) / PAGE_SIZE == pg && HEADER <= At(pg, c, k) % PAGE_SIZE && At(pg, c, k) % 16 == 0
      && At(pg, c, k) + ClassSize(c) <= (pg + 1) * PAGE_SIZE
  {
    hide ClassOk, ClassSize;
    SizeRange(c);
    var z, n := ClassSize(c), PAGE_SIZE - HEADER;
    assert n == z * (n / z) + n % z;
    Larger(z, k, n / z);
    InPage(pg, HEADER + z * k);
    ClassTable(c);
    Sixteens(pg, z, k);
  }

  lemma {:induction false} Sixteens(pg: nat, z: nat, k: nat)
    requires z % 16 == 0
    ensures (pg * PAGE_SIZE + HEADER + z * k) % 16 == 0
  {
    var n := z / 16;
    assert z * k == 16 * (n * k) by { assert z == 16 * n; }
    assert pg * PAGE_SIZE + HEADER + 16 * (n * k) == 16 * (256 * pg + 2 + n * k);
  }

  lemma {:induction false} InPage(pg: nat, r: nat)
    requires 0 < r < PAGE_SIZE
    ensures (pg * PAGE_SIZE + r) / PAGE_SIZE == pg && (pg * PAGE_SIZE + r) % PAGE_SIZE == r
  {
  }

  /** The blocks are as many as fit behind the header of a page, from the end of the header on. */
  lemma {:induction false} CountFits(pg: nat, c: Class)
    requires ClassOk(c) && ClassSize(c) > 0
    ensures At(pg, c, 0) == pg * PAGE_SIZE + HEADER
    ensures At(pg, c, Count(c)) <= (pg + 1) * PAGE_SIZE < At(pg, c, Count(c)) + ClassSize(c)
  {
    hide ClassOk, ClassSize;
    SizeRange(c);
    var z, n := ClassSize(c), PAGE_SIZE - HEADER;
    assert n == z * (n / z) + n % z;
  }

  /** Different blocks do not overlap. */
  lemma {:induction false} BlocksApart(pg: nat, c: Class, j: nat, k: nat)
    requires j < k
    ensures At(pg, c, j) + ClassSize(c) <= At(pg, c, k) && (k == j + 1 ==> At(pg, c, j) + ClassSize(c) == At(pg, c, k))
  {
    hide ClassSize;
    Larger(ClassSize(c), j, k);
  }

  ghost predicate IsBlockAt(page: Pages, c: Class, a: nat, k: nat) {
    && ClassOk(c) && ClassSize(c) > 0 && k < Count(c)
    && a / PAGE_SIZE in page && page[a / PAGE_SIZE].pool == c && a == At(a / PAGE_SIZE, c, k)
  }

  ghost predicate IsBlock(page: Pages, c: Class, a: nat) {
    exists k :: IsBlockAt(page, c, a, k)
  }

  /** The blocks of a page that are on a list */
  ghost function FreeIn(list: seq<nat>, pg: nat): set<nat> {
    set a | a in list && a / PAGE_SIZE == pg
  }

  // ---------------------------------------------------------------- the invariant

  ghost predicate Listed(page: Pages, free: FreeLists) {
    forall c | c in free ::
      ClassOk(c) && NoDup(free[c]) && forall i | 0 <= i < |free[c]| :: IsBlock(page, c, free[c][i])
  }

  ghost predicate Complete(free: FreeLists) {
    forall c | ClassOk(c) :: c in free
  }

  /** `free_count` is the number of blocks of the page on the list of its pool. */
  ghost predicate Counted(page: Pages, free: FreeLists) {
    forall pg | pg in page :: page[pg].pool in free && page[pg].freeCount == |FreeIn(free[page[pg].pool], pg)|
  }

  /** Every block is either on its list or in use. */
  ghost predicate Conserved(page: Pages, free: FreeLists, live: Live) {
    && (forall a | a in live :: IsBlock(page, live[a], a))
    && (forall c, a | c in free && IsBlock(page, c, a) :: a in free[c] <==> a !in live)
  }

  ghost predicate Inv(page: Pages, free: FreeLists, live: Live) {
    Complete(free) && Listed(page, free) && Counted(page, free) && Conserved(page, free, live)
  }

  /** The blocks that the buddy allocator has given out are the pool pages and the runs, and no others. */
  ghost predicate Backed(given: map<nat, nat>, page: Pages, runs: Runs) {
    && given.Keys == page.Keys + runs.Keys && page.Keys !! runs.Keys
    && (forall pg | pg in page :: pg in given && given[pg] == 0)
    && (forall p | p in runs :: p in given && 0 < runs[p] <= Dyadic.Pow2(given[p]))
  }

  // ---------------------------------------------------------------- one block

  lemma {:induction false} BlockPage(page: Pages, c: Class, a: nat)
    requires IsBlock(page, c, a)
    ensures ClassOk(c) && a / PAGE_SIZE in page && page[a / PAGE_SIZE].pool == c && a % PAGE_SIZE != 0
      && a + ClassSize(c) <= (a / PAGE_SIZE + 1) * PAGE_SIZE
  {
    hide ClassOk, ClassSize, Count, At;
    var k :| IsBlockAt(page, c, a, k);
    BlockFacts(a / PAGE_SIZE, c, k);
  }

  lemma {:induction false} FreeInSnoc(list: seq<nat>, a: nat, pg: nat)
    requires a !in list
    ensures |FreeIn(list + [a], pg)| == |FreeIn(list, pg)| + if a / PAGE_SIZE == pg then 1 else 0
  {
    if a / PAGE_SIZE == pg {
      assert FreeIn(list + [a], pg) == FreeIn(list, pg) + {a};
    } else {
      assert FreeIn(list + [a], pg) == FreeIn(list, pg);
    }
  }

  /** The page with one free block more or less */
  function Recount(page: Pages, pg: nat, d: int): Pages
    requires pg in page && page[pg].freeCount + d >= 0
  {
    page[pg := page[pg].(freeCount := page[pg].freeCount + d)]
  }

  lemma {:induction false} SameBlocks(page: Pages, pg: nat, d: int, c: Class, a: nat)
    requires pg in page && page[pg].freeCount + d >= 0
    ensures IsBlock(Recount(page, pg, d), c, a) <==> IsBlock(page, c, a)
  {
    hide ClassOk, ClassSize, Count, At;
    var p := Recount(page, pg, d);
    assert forall k :: IsBlockAt(p, c, a, k) <==> IsBlockAt(page, c, a, k);
  }

  /** A block goes from the end of its list into use. */
  lemma {:induction false} Taken(page: Pages, free: FreeLists, live: Live, c: Class)
    requires Inv(page, free, live) && c in free && free[c] != []
    ensures var n := |free[c]| - 1; var a := free[c][n];
      && a !in live && a / PAGE_SIZE in page && page[a / PAGE_SIZE].freeCount >= 1 && IsBlock(page, c, a)
      && Inv(Recount(page, a / PAGE_SIZE, -1), free[c := free[c][..n]], live[a := c])
  {
    hide IsBlock, ClassOk;
    var n := |free[c]| - 1;
    var a, f := free[c][n], free[c][..n];
    assert free[c] == f + [a] && a in free[c] && a !in f;
    BlockPage(page, c, a);
    var pg := a / PAGE_SIZE;
    FreeInSnoc(f, a, pg);
    var page', free', live' := Recount(page, pg, -1), free[c := f], live[a := c];
    CountedChange(page, free, c, f, a, pg, -1);
    MovedLists(page, free, c, f, pg, -1);
    MovedLive(page, free, live, c, a, pg);
  }

  lemma {:induction false} CountedChange(page: Pages, free: FreeLists, c: Class, f: seq<nat>, a: nat, pg: nat, d: int)
    requires Counted(page, free) && c in free && pg in page && pg == a / PAGE_SIZE && page[pg].pool == c
      && page[pg].freeCount + d >= 0
    requires (d == -1 && free[c] == f + [a] && a !in f) || (d == 1 && f == free[c] + [a] && a !in free[c])
    ensures Counted(Recount(page, pg, d), free[c := f])
  {
    var page', free' := Recount(page, pg, d), free[c := f];
    forall q | q in page' ensures page'[q].pool in free' && page'[q].freeCount == |FreeIn(free'[page'[q].pool], q)| {
      if d == 1 { FreeInSnoc(free[c], a, q); } else { FreeInSnoc(f, a, q); }
    }
  }

  lemma {:induction false} MovedLists(page: Pages, free: FreeLists, c: Class, f: seq<nat>, pg: nat, d: int)
    requires Listed(page, free) && c in free && pg in page && page[pg].freeCount + d >= 0 && NoDup(f)
      && forall i | 0 <= i < |f| :: IsBlock(page, c, f[i])
    ensures Listed(Recount(page, pg, d), free[c := f])
  {
    hide IsBlock, ClassOk, NoDup;
    var page', free' := Recount(page, pg, d), free[c := f];
    forall e | e in free' ensures ClassOk(e) && NoDup(free'[e])
      && forall i | 0 <= i < |free'[e]| :: IsBlock(page', e, free'[e][i]) {
      forall i | 0 <= i < |free'[e]| ensures IsBlock(page', e, free'[e][i]) {
        SameBlocks(page, pg, d, e, free'[e][i]);
      }
    }
  }

  lemma {:induction false} MovedLive(page: Pages, free: FreeLists, live: Live, c: Class, a: nat, pg: nat)
    requires Conserved(page, free, live) && c in free && IsBlock(page, c, a) && a in free[c] && pg in page
      && page[pg].freeCount >= 1
    requires NoDup(free[c]) && free[c][|free[c]| - 1] == a
    ensures Conserved(Recount(page, pg, -1), free[c := free[c][..|free[c]| - 1]], live[a := c])
  {
    hide IsBlock;
    var n := |free[c]| - 1;
    var page', free', live' := Recount(page, pg, -1), free[c := free[c][..n]], live[a := c];
    assert free[c] == free[c][..n] + [a];
    forall b | b in live' ensures IsBlock(page', live'[b], b) {
      SameBlocks(page, pg, -1, live'[b], b);
    }
    forall e, b | e in free' && IsBlock(page', e, b) ensures b in free'[e] <==> b !in live' {
      SameBlocks(page, pg, -1, e, b);
      if b == a {
        BlockPage(page, e, a);
        BlockPage(page, c, a);
      }
    }
  }

  /** A block comes back from use to the end of its list. */
  lemma {:induction false} Returned(page: Pages, free: FreeLists, live: Live, a: nat)
    requires Inv(page, free, live) && a in live
    ensures var c := live[a];
      && c in free && a / PAGE_SIZE in page && page[a / PAGE_SIZE].pool == c && a !in free[c] && a % PAGE_SIZE != 0
      && Inv(Recount(page, a / PAGE_SIZE, 1), free[c := free[c] + [a]], live - {a})
  {
    hide IsBlock, ClassOk;
    var c := live[a];
    assert IsBlock(page, c, a);
    BlockPage(page, c, a);
    var pg, f := a / PAGE_SIZE, free[c] + [a];
    NoDupAdd(free[c], a);
    CountedChange(page, free, c, f, a, pg, 1);
    MovedLists(page, free, c, f, pg, 1);
    ReturnedLive(page, free, live, a, pg);
  }

  lemma {:induction false} ReturnedLive(page: Pages, free: FreeLists, live: Live, a: nat, pg: nat)
    requires Conserved(page, free, live) && a in live && live[a] in free && pg in page
    ensures Conserved(Recount(page, pg, 1), free[live[a] := free[live[a]] + [a]], live - {a})
  {
    hide IsBlock;
    var c := live[a];
    var page', free', live' := Recount(page, pg, 1), free[c := free[c] + [a]], live - {a};
    forall b | b in live' ensures IsBlock(page', live'[b], b) {
      SameBlocks(page, pg, 1, live'[b], b);
    }
    forall e, b | e in free' && IsBlock(page', e, b) ensures b in free'[e] <==> b !in live' {
      SameBlocks(page, pg, 1, e, b);
      if b == a {
        BlockPage(page, e, a);
        BlockPage(page, c, a);
      }
    }
  }

  // ---------------------------------------------------------------- one page more

  ghost function Blocks(pg: nat, c: Class, n: nat): (b: seq<nat>)
    ensures |b| == n && forall k | 0 <= k < n :: b[k] == At(pg, c, k)
  {
    seq(n, k requires 0 <= k < n => At(pg, c, k))
  }

  lemma {:induction false} BlocksNoDup(pg: nat, c: Class, n: nat)
    requires ClassOk(c)
    ensures NoDup(Blocks(pg, c, n))
  {
    hide ClassOk, ClassSize, At;
    SizeRange(c);
    forall i, j | 0 <= i < j < n ensures At(pg, c, i) != At(pg, c, j) {
      BlocksApart(pg, c, i, j);
    }
  }

  lemma {:induction false} Grown(page: Pages, pg: nat, x: Page, c: Class, a: nat)
    requires pg !in page
    ensures a / PAGE_SIZE != pg ==> (IsBlock(page[pg := x], c, a) <==> IsBlock(page, c, a))
    ensures IsBlock(page, c, a) ==> a / PAGE_SIZE != pg && IsBlock(page[pg := x], c, a)
  {
    hide ClassOk, ClassSize, Count, At;
    var p := page[pg := x];
    assert a / PAGE_SIZE != pg ==> forall k :: IsBlockAt(p, c, a, k) <==> IsBlockAt(page, c, a, k);
    if IsBlock(page, c, a) {
      BlockPage(page, c, a);
    }
  }

  /** The blocks of the new page are those on its list. */
  lemma {:induction false} OwnBlocks(page: Pages, pg: nat, x: Page, e: Class, a: nat)
    requires pg in page && page[pg] == x && ClassOk(x.pool) && ClassSize(x.pool) > 0
    ensures a in Blocks(pg, x.pool, Count(x.pool)) ==> IsBlock(page, x.pool, a) && a / PAGE_SIZE == pg
    ensures a / PAGE_SIZE == pg && IsBlock(page, e, a) ==> e == x.pool && a in Blocks(pg, x.pool, Count(x.pool))
  {
    hide ClassOk, ClassSize, Count, At;
    var b := Blocks(pg, x.pool, Count(x.pool));
    if a in b {
      var k :| 0 <= k < |b| && b[k] == a;
      BlockFacts(pg, x.pool, k);
      assert IsBlockAt(page, x.pool, a, k);
    }
    if a / PAGE_SIZE == pg && IsBlock(page, e, a) {
      var k: nat :| IsBlockAt(page, e, a, k);
      assert b[k] == a;
    }
  }

  lemma {:induction false} NewPage(page: Pages, free: FreeLists, live: Live, c: Class, pg: nat)
    requires Inv(page, free, live) && c in free && pg !in page
    ensures ClassOk(c) && ClassSize(c) > 0
    ensures Inv(page[pg := Page(c, Count(c))], free[c := free[c] + Blocks(pg, c, Count(c))], live)
  {
    hide IsBlock, ClassOk, ClassSize, Count, Blocks, NoDup;
    SizeRange(c);
    NewLists(page, free, c, pg);
    NewCounts(page, free, c, pg);
    NewConserved(page, free, live, c, pg);
  }

  lemma {:induction false} NewLists(page: Pages, free: FreeLists, c: Class, pg: nat)
    requires Listed(page, free) && c in free && pg !in page && ClassOk(c) && ClassSize(c) > 0
    ensures Listed(page[pg := Page(c, Count(c))], free[c := free[c] + Blocks(pg, c, Count(c))])
  {
    hide IsBlock, ClassOk, ClassSize, Count, Blocks;
    var x, b := Page(c, Count(c)), Blocks(pg, c, Count(c));
    var page', f := page[pg := x], free[c] + b;
    BlocksNoDup(pg, c, Count(c));
    forall i | 0 <= i < |f| ensures IsBlock(page', c, f[i]) {
      if i < |free[c]| { Grown(page, pg, x, c, f[i]); } else { assert f[i] in b; OwnBlocks(page', pg, x, c, f[i]); }
    }
    forall i, j | 0 <= i < j < |f| ensures f[i] != f[j] {
      if i < |free[c]| <= j {
        Grown(page, pg, x, c, f[i]);
        assert f[j] in b;
        OwnBlocks(page', pg, x, c, f[j]);
      }
    }
    var free' := free[c := f];
    forall e | e in free' && e != c ensures forall i | 0 <= i < |free'[e]| :: IsBlock(page', e, free'[e][i]) {
      forall i | 0 <= i < |free'[e]| ensures IsBlock(page', e, free'[e][i]) {
        Grown(page, pg, x, e, free'[e][i]);
      }
    }
  }

  lemma {:induction false} NewCounts(page: Pages, free: FreeLists, c: Class, pg: nat)
    requires Listed(page, free) && Counted(page, free) && c in free && pg !in page && ClassOk(c) && ClassSize(c) > 0
    ensures Counted(page[pg := Page(c, Count(c))], free[c := free[c] + Blocks(pg, c, Count(c))])
  {
    hide IsBlock, ClassOk, ClassSize, Count, Blocks, NoDup;
    var x, b := Page(c, Count(c)), Blocks(pg, c, Count(c));
    var page', f := page[pg := x], free[c] + b;
    forall a | a in b ensures a / PAGE_SIZE == pg { OwnBlocks(page', pg, x, c, a); }
    forall i | 0 <= i < |free[c]| ensures free[c][i] / PAGE_SIZE != pg { Grown(page, pg, x, c, free[c][i]); }
    BlocksNoDup(pg, c, Count(c));
    var r := NoDupSet(b);
    assert FreeIn(f, pg) == r;
    forall q | q in page ensures FreeIn(f, q) == FreeIn(free[c], q) {
    }
  }

  lemma {:induction false} NewConserved(page: Pages, free: FreeLists, live: Live, c: Class, pg: nat)
    requires Listed(page, free) && Conserved(page, free, live) && c in free && pg !in page && ClassOk(c)
      && ClassSize(c) > 0
    ensures Conserved(page[pg := Page(c, Count(c))], free[c := free[c] + Blocks(pg, c, Count(c))], live)
  {
    hide IsBlock, ClassOk, ClassSize, Count, Blocks, NoDup;
    var x, b := Page(c, Count(c)), Blocks(pg, c, Count(c));
    var page', free' := page[pg := x], free[c := free[c] + b];
    forall a | a in live ensures IsBlock(page', live[a], a) { Grown(page, pg, x, live[a], a); }
    forall e, a | e in free' && IsBlock(page', e, a) ensures a in free'[e] <==> a !in live {
      Grown(page, pg, x, e, a);
      OwnBlocks(page', pg, x, e, a);
      if a in live { Grown(page, pg, x, live[a], a); }
    }
  }

  // ---------------------------------------------------------------- the code

  class Allocator {
    const system: Buddy.BuddySystem
    var page: Pages
    var free: FreeLists
    ghost var live: Live
    ghost var runs: Runs

    ghost predicate Valid()
      reads this, system
    {
      && |system.free| == |system.order| && system.Valid()
      && Inv(page, free, live) && Backed(system.Live(), page, runs)
    }

    /** `mem_pool_create` on a page allocator that has given out nothing */
    constructor (system: Buddy.BuddySystem)
      requires |system.free| == |system.order| && system.Valid() && system.Live() == map[]
      ensures Valid() && this.system == system && live == map[] && runs == map[] && page == map[]
      ensures forall c :: c in free <==> ClassOk(c)
      ensures forall c | c in free :: free[c] == []
    {
      this.system := system;
      page, live, runs := map[], map[], map[];
      free := map f, s | 0 <= f < 8 && 0 <= s < 4 && s < Dyadic.Pow2(Min(f, S_INDEX_LOG2)) :: Class(f, s) := [];
    }

    /** `mem_pool_alloc_page` */
    method AllocPoolPage(c: Class) returns (ok: bool, ghost pg: nat)
      requires Valid() && c in free
      modifies this`page, this`free, system
      ensures Valid() && ClassOk(c) && ClassSize(c) > 0
      ensures !ok <==> old(system.Exhausted(1))
      ensures !ok ==> page == old(page) && free == old(free)
      ensures ok ==> pg !in old(page) && page == old(page)[pg := Page(c, Count(c))]
      ensures ok ==> free == old(free)[c := old(free)[c] + Blocks(pg, c, Count(c))]
    {
      hide Inv, ClassOk, ClassSize, Count, At, Backed, Dyadic.Pow2, Buddy.RequestOrder, Buddy.BuddySystem.Valid,
        Buddy.BuddySystem.Exhausted, Buddy.Allocated;
      OnePage();
      ListSize(page, free, live, c);
      var r := system.AllocPage(1);
      ok, pg := false, 0;
      if r.None? {
        return;
      }
      var p := r.value;
      pg := p;
      PageBacked(old(system.Live()), page, runs, p, Page(c, Count(c)));
      NewPage(page, free, live, c, p);
      page := page[p := Page(c, Count(c))];
      var k := 0;
      assert free[c] + Blocks(pg, c, 0) == free[c] && free == free[c := free[c]];
      while k < Count(c)
        invariant 0 <= k <= Count(c) && free == old(free)[c := old(free)[c] + Blocks(pg, c, k)]
        invariant pg == p && page == old(page)[pg := Page(c, Count(c))]
        invariant |system.free| == |system.order| && system.Valid() && system.Live() == old(system.Live())[pg := 0]
      {
        assert Blocks(pg, c, k + 1) == Blocks(pg, c, k) + [At(pg, c, k)];
        free := free[c := free[c] + [At(p, c, k)]];
        assert free[c] == old(free)[c] + Blocks(pg, c, k + 1);
        k := k + 1;
      }
      ok := true;
    }

    /** `mem_pool_alloc` */
    method PoolAlloc(size: nat) returns (ptr: Option<nat>)
      requires Valid()
      modifies this`page, this`free, this`live, system
      ensures Valid() && runs == old(runs)
      ensures ptr.None? <==>
        || size == 0 || size > MAX_SIZE
        || (PoolFor(size) in old(free) && old(free)[PoolFor(size)] == [] && old(system.Exhausted(1)))
      ensures ptr.None? ==> live == old(live)
      ensures ptr.Some? ==> var c := PoolFor(size);
        ClassSize(c) >= size && ptr.value !in old(live) && live == old(live)[ptr.value := c]
    {
      hide Inv, ClassOk, ClassSize, PoolFor, Adjust, Count, Backed, Dyadic.Pow2, Buddy.BuddySystem.Valid,
        Buddy.BuddySystem.Exhausted, Buddy.Allocated;
      if size == 0 || size > MAX_SIZE {
        return None;
      }
      AdjustLocates(size);
      var c := PoolFor(size);
      HasList(page, free, live, c);
      if free[c] == [] {
        var ok;
        ghost var pg;
        ok, pg := AllocPoolPage(c);
        if !ok {
          return None;
        }
        SomeBlock(c, pg, free[c]);
      }
      Taken(page, free, live, c);
      var n := |free[c]| - 1;
      var a := free[c][n];
      RecountBacked(system.Live(), page, runs, a / PAGE_SIZE, -1);
      free := free[c := free[c][..n]];
      page := Recount(page, a / PAGE_SIZE, -1);
      live := live[a := c];
      ptr := Some(a);
    }

    /** `mem_pool_free` */
    method PoolFree(a: nat)
      requires Valid() && a in live
      modifies this`page, this`free, this`live
      ensures Valid() && live == old(live) - {a} && runs == old(runs) && page.Keys == old(page).Keys
    {
      hide Inv, Backed;
      Returned(page, free, live, a);
      var pg := a / PAGE_SIZE;
      RecountBacked(system.Live(), page, runs, pg, 1);
      var c := page[pg].pool;
      free := free[c := free[c] + [a]];
      page := Recount(page, pg, 1);
      live := live - {a};
    }

    /** `malloc`: large requests are rounded up to pages and go to the page allocator. */
    method Malloc(size: nat) returns (ptr: Option<nat>)
      requires Valid() && PagesFor(size) <= Dyadic.Pow2(BuddyTiles.MAX_ORDER)
      modifies this`page, this`free, this`live, this`runs, system
      ensures Valid()
      ensures size <= MAX_SIZE ==>
        (ptr.None? <==>
          || size == 0
          || (PoolFor(size) in old(free) && old(free)[PoolFor(size)] == [] && old(system.Exhausted(1))))
      ensures size > MAX_SIZE ==> (ptr.None? <==> old(system.Exhausted(PagesFor(size))))
      ensures ptr.None? ==> live == old(live) && runs == old(runs)
      ensures ptr.Some? && size <= MAX_SIZE ==>
        var c := PoolFor(size);
          && ClassSize(c) >= size && ptr.value !in old(live) && live == old(live)[ptr.value := c]
          && runs == old(runs)
      ensures ptr.Some? && size > MAX_SIZE ==>
        var p := ptr.value / PAGE_SIZE;
        && ptr.value % PAGE_SIZE == 0 && live == old(live)
        && (PagesFor(size) - 1) * PAGE_SIZE < size <= PagesFor(size) * PAGE_SIZE
        && p !in old(runs) && runs == old(runs)[p := PagesFor(size)]
    {
      hide Inv, ClassSize, PoolFor, Adjust, Backed, Dyadic.Pow2, Buddy.RequestOrder, Buddy.BuddySystem.Valid,
        Buddy.BuddySystem.Exhausted, Buddy.Allocated, PagesFor;
      LargeRun(size);
      if size > MAX_SIZE {
        var r := system.AllocPage(PagesFor(size));
        if r.None? {
          return None;
        }
        RunBacked(old(system.Live()), page, runs, r.value, PagesFor(size));
        runs := runs[r.value := PagesFor(size)];
        ptr := Some(r.value * PAGE_SIZE);
      } else {
        ptr := PoolAlloc(size);
      }
    }

    /** `free`: the alignment of the pointer tells which allocator it came from. */
    method Free(ptr: nat)
      requires Valid() && (ptr in live || (ptr % PAGE_SIZE == 0 && ptr / PAGE_SIZE in runs))
      modifies this`page, this`free, this`live, this`runs, system
      ensures Valid()
      ensures ptr in old(live) ==> live == old(live) - {ptr} && runs == old(runs) && system.Live() == old(system.Live())
      ensures ptr !in old(live) ==>
        runs == old(runs) - {ptr / PAGE_SIZE} && live == old(live)
          && system.Live() == old(system.Live()) - {ptr / PAGE_SIZE}
    {
      hide Inv, Backed;
      if ptr in live {
        Returned(page, free, live, ptr);
      }
      if ptr % PAGE_SIZE == 0 {
        RunGiven(system, page, runs, ptr / PAGE_SIZE);
        system.FreePage(ptr / PAGE_SIZE);
        runs := runs - {ptr / PAGE_SIZE};
      } else {
        PoolFree(ptr);
      }
    }
  }

  /** `align_up(size, PAGE_SIZE) >> PAGE_SHIFT` for a large request; a small one takes a page for its pool */
  function PagesFor(size: nat): nat {
    if size > MAX_SIZE then (size + PAGE_SIZE - 1) / PAGE_SIZE else 1
  }

  lemma {:induction false} LargeRun(size: nat)
    ensures PagesFor(size) * PAGE_SIZE >= size && PagesFor(size) > 0
    ensures size > MAX_SIZE ==> (PagesFor(size) - 1) * PAGE_SIZE < size
  {
  }

  lemma {:induction false} OnePage()
    ensures Buddy.RequestOrder(1) == 0 && 1 <= Dyadic.Pow2(BuddyTiles.MAX_ORDER)
  {
    hide Buddy.RequestOrder;
    assert Dyadic.Pow2(0) == 1;
    Buddy.RequestOrderFits(1, 0);
  }

  lemma {:induction false} ListSize(page: Pages, free: FreeLists, live: Live, c: Class)
    requires Inv(page, free, live) && c in free
    ensures ClassOk(c) && ClassSize(c) > 0
  {
    hide ClassSize, ClassOk, Complete, Counted, Conserved;
    SizeRange(c);
  }

  /** A page for a pool is a block of order zero. */
  lemma {:induction false} PageBacked(given: map<nat, nat>, page: Pages, runs: Runs, pg: nat, x: Page)
    requires Backed(given, page, runs) && pg !in given
    ensures pg !in page && Backed(given[pg := 0], page[pg := x], runs)
  {
  }

  lemma {:induction false} RecountBacked(given: map<nat, nat>, page: Pages, runs: Runs, pg: nat, d: int)
    requires Backed(given, page, runs) && pg in page && page[pg].freeCount + d >= 0
    ensures Backed(given, Recount(page, pg, d), runs)
  {
  }

  /** A run lies within the block that was given for it. */
  lemma {:induction false} RunBacked(given: map<nat, nat>, page: Pages, runs: Runs, p: nat, n: nat)
    requires Backed(given, page, runs) && p !in given && n > 0
    ensures p !in runs && Backed(given[p := Buddy.RequestOrder(n)], page, runs[p := n])
  {
    hide Dyadic.Pow2, Buddy.RequestOrder;
    Buddy.RequestOrderFits(n, Buddy.RequestOrder(n));
  }

  /** The start of a run is the start of a block in use, and without it the rest is still accounted for. */
  lemma {:induction false} RunGiven(s: Buddy.BuddySystem, page: Pages, runs: Runs, p: nat)
    requires |s.free| == |s.order| && s.Valid() && Backed(s.Live(), page, runs) && p in runs
    ensures BuddyTiles.IsHead(s.order, p) && !s.free[p] && Backed(s.Live() - {p}, page, runs - {p})
  {
    hide Dyadic.Pow2, BuddyTiles.Tiled, BuddyTiles.Coalesced, Buddy.Filed, Buddy.Counted;
  }

  lemma {:induction false} HasList(page: Pages, free: FreeLists, live: Live, c: Class)
    requires Inv(page, free, live) && ClassOk(c)
    ensures c in free
  {
  }

  lemma {:induction false} SomeBlock(c: Class, pg: nat, list: seq<nat>)
    requires ClassOk(c) && ClassSize(c) > 0 && list == [] + Blocks(pg, c, Count(c))
    ensures list != []
  {
    hide ClassOk, ClassSize;
    SizeRange(c);
    var z, n := ClassSize(c), PAGE_SIZE - HEADER;
    assert n == z * (n / z) + n % z;
    assert z * 0 == 0;
  }

  /** What is in use never overlaps: two blocks, a block and a run of pages, or two runs. */
  lemma {:induction false} LiveApart(h: Allocator, a: nat, b: nat)
    requires h.Valid()
    ensures a in h.live && b in h.live && a != b ==> a + ClassSize(h.live[a]) <= b || b + ClassSize(h.live[b]) <= a
    ensures a in h.live && b in h.runs ==> a + ClassSize(h.live[a]) <= b * PAGE_SIZE || (b + h.runs[b]) * PAGE_SIZE <= a
    ensures a in h.runs && b in h.runs && a < b ==> a + h.runs[a] <= b
    ensures a in h.live && b in h.page ==>
      a + ClassSize(h.live[a]) <= b * PAGE_SIZE || b * PAGE_SIZE + HEADER <= a
    ensures a in h.runs && b in h.page ==> (a + h.runs[a]) * PAGE_SIZE <= b * PAGE_SIZE || b < a
  {
    hide Inv, Backed, ClassSize, IsBlock;
    if a in h.live {
      LivePage(h.page, h.free, h.live, a);
      if b in h.live && a != b {
        LivePage(h.page, h.free, h.live, b);
        if b / PAGE_SIZE == a / PAGE_SIZE {
          SamePage(h.page, h.live[a], a, b);
        }
      }
      if b in h.runs {
        GivenApart(h, a / PAGE_SIZE, b);
      }
    }
    if a in h.runs && b in h.runs && a < b {
      RunsApart(h, a, b);
    }
    if a in h.live && b in h.page {
      HeaderApart(h.page, h.free, h.live, a, b);
    }
    if a in h.runs && b in h.page {
      GivenApart(h, b, a);
    }
  }

  /** No block in use reaches into the header of a page. */
  lemma {:induction false} HeaderApart(page: Pages, free: FreeLists, live: Live, a: nat, pg: nat)
    requires Inv(page, free, live) && a in live
    ensures a + ClassSize(live[a]) <= pg * PAGE_SIZE || pg * PAGE_SIZE + HEADER <= a
  {
    hide Inv, ClassSize, ClassOk, Count, At;
    LivePage(page, free, live, a);
    var k :| IsBlockAt(page, live[a], a, k);
    BlockFacts(a / PAGE_SIZE, live[a], k);
  }

  lemma {:induction false} LivePage(page: Pages, free: FreeLists, live: Live, a: nat)
    requires Inv(page, free, live) && a in live
    ensures IsBlock(page, live[a], a) && a / PAGE_SIZE in page && page[a / PAGE_SIZE].pool == live[a]
    ensures a + ClassSize(live[a]) <= (a / PAGE_SIZE + 1) * PAGE_SIZE
  {
    hide Listed, Counted, Complete, IsBlock, ClassSize;
    BlockPage(page, live[a], a);
  }

  /** A pool page and a run are apart, because the buddy allocator's blocks are. */
  lemma {:induction false} GivenApart(h: Allocator, pg: nat, p: nat)
    requires h.Valid() && pg in h.page && p in h.runs
    ensures pg < p || p + h.runs[p] <= pg
  {
    hide Inv, Dyadic.Pow2;
    Buddy.LiveDisjoint(h.system, p, pg);
  }

  lemma {:induction false} RunsApart(h: Allocator, p: nat, q: nat)
    requires h.Valid() && p in h.runs && q in h.runs && p < q
    ensures p + h.runs[p] <= q
  {
    hide Inv, Dyadic.Pow2;
    Buddy.LiveDisjoint(h.system, p, q);
  }

  lemma {:induction false} SamePage(page: Pages, c: Class, a: nat, b: nat)
    requires IsBlock(page, c, a) && IsBlock(page, c, b) && a != b && a / PAGE_SIZE == b / PAGE_SIZE
    ensures a + ClassSize(c) <= b || b + ClassSize(c) <= a
  {
    hide ClassOk, ClassSize, Count, At;
    var j: nat :| IsBlockAt(page, c, a, j);
    var k: nat :| IsBlockAt(page, c, b, k);
    if j < k { BlocksApart(a / PAGE_SIZE, c, j, k); } else if k < j { BlocksApart(a / PAGE_SIZE, c, k, j); }
  }
}
