/**
 The size classes of mm/mem_pool.c: powers of two and, from 64 bytes on, the quarters between them.
 */
module SizeClasses {
  import opened Dyadic

  const MIN_SIZE: nat := 16
  const MAX_SIZE: nat := 3584
  const PAGE_SIZE: nat := 4096
  /** `sizeof(mem_pool_header_t)` */
  const HEADER: nat := 32
  const ALIGN_LOG2: nat := 4
  const S_INDEX_LOG2: nat := 2

  /** The place of a pool in the table of pools */
  datatype Class = Class(f: nat, s: nat)

  function Min(a: nat, b: nat): nat {
    if a < b then a else b
  }

  function AlignUp(x: nat, m: nat): nat
    requires m > 0
  {
    (x + m - 1) / m * m
  }

  ghost predicate ClassOk(c: Class) {
    c.f < 8 && c.s < Pow2(Min(c.f, S_INDEX_LOG2))
  }

  /** `pool->size`, as `mem_pool_create` sets it */
  function ClassSize(c: Class): nat {
    Pow2(c.f + 4) + Pow2(c.f + 4 - Min(c.f, S_INDEX_LOG2)) * c.s
  }

  /** `adjust_request_size` */
  function Adjust(request: nat): nat
  {
    var size := if request < MIN_SIZE then MIN_SIZE else request;
    var log := Log2(size);
    AlignUp(size, Pow2(Shifted(log)))
  }

  /** `size_log2 - shift`: the logarithm of the distance between classes */
  function Shifted(log: nat): nat {
    if log < ALIGN_LOG2 then log else log - Min(log - ALIGN_LOG2, S_INDEX_LOG2)
  }

  /** The indices that `mem_pool_locate_free` computes */
  function Locate(size: nat): Class
    requires size >= MIN_SIZE
  {
    var log := Log2(size);
    Class(if log < 4 then 0 else log - 4, size / Pow2(Shifted(log)) % Pow2(log - Shifted(log)))
  }

  /** The pool that serves a request */
  function PoolFor(request: nat): Class {
    if Adjust(request) >= MIN_SIZE then Locate(Adjust(request)) else Class(0, 0)
  }

  lemma {:induction false} Powers()
    ensures Pow2(0) == 1 && Pow2(1) == 2 && Pow2(2) == 4 && Pow2(3) == 8 && Pow2(4) == 16 && Pow2(5) == 32
      && Pow2(6) == 64
    ensures Pow2(7) == 128 && Pow2(8) == 256 && Pow2(9) == 512 && Pow2(10) == 1024 && Pow2(11) == 2048
      && Pow2(12) == 4096
  {
  }

  lemma {:induction false} LogIs(size: nat, k: nat)
    requires 4 <= k <= 11 && Pow2(k) <= size < Pow2(k + 1)
    ensures size > 0 && Log2(size) == k && Shifted(k) == k - Min(k - 4, 2)
  {
    hide Log2, Pow2;
    Powers();
    Pow2Mono(4, k);
    Log2Unique(size, k);
  }

  /** The logarithm of a request */
  lemma {:induction false} LogOf(size: nat) returns (k: nat)
    requires 16 <= size < 4096
    ensures 4 <= k <= 11 && Pow2(k) <= size < Pow2(k + 1)
  {
    hide Pow2;
    Powers();
    k := if size < 32 then 4 else if size < 64 then 5 else if size < 128 then 6 else if size < 256 then 7
         else if size < 512 then 8 else if size < 1024 then 9 else if size < 2048 then 10 else 11;
  }

  lemma {:induction false} AlignFacts(x: nat, m: nat)
    requires m > 0
    ensures x <= AlignUp(x, m) < x + m && AlignUp(x, m) % m == 0
  {
    var q := (x + m - 1) / m;
    assert x + m - 1 == m * q + (x + m - 1) % m;
    assert AlignUp(x, m) == q * m == m * q;
    ModZero(q, m);
  }

  lemma {:induction false} ModZero(q: nat, m: nat)
    requires m > 0
    ensures q * m % m == 0
  {
    if q > 0 {
      ModZero(q - 1, m);
      assert q * m == (q - 1) * m + m;
      AddMod((q - 1) * m, m);
    }
  }

  lemma {:induction false} AddMod(a: nat, m: nat)
    requires m > 0
    ensures (a + m) % m == a % m
  {
    var q := a / m;
    assert a == m * q + a % m;
    assert a + m == m * (q + 1) + a % m;
    Unique(a + m, m, q + 1, a % m);
  }

  lemma {:induction false} Unique(a: nat, m: nat, q: nat, r: nat)
    requires m > 0 && a == m * q + r && r < m
    ensures a % m == r && a / m == q
  {
    var p, s := a / m, a % m;
    assert m * p + s == m * q + r;
    if p > q { Larger(m, q, p); } else if p < q { Larger(m, p, q); }
  }

  lemma {:induction false} Larger(m: nat, p: nat, q: nat)
    requires p < q
    ensures m * p + m <= m * q
  {
    assert m * (p + 1) == m * p + m;
    assert m * (p + 1) <= m * q;
  }

  /** A size of the form 2^k + m * s is that of the class at k - 4 and s. */
  lemma {:induction false} LocateIs(k: nat, s: nat, size: nat)
    requires 4 <= k <= 11 && s < Pow2(Min(k - 4, 2)) && size == Pow2(k) + Pow2(Shifted(k)) * s
    ensures size >= 16 && Locate(size) == Class(k - 4, s) && ClassOk(Class(k - 4, s))
      && ClassSize(Class(k - 4, s)) == size
  {
    hide Log2, Pow2;
    Powers();
    var t := Min(k - 4, 2);
    var m := Pow2(Shifted(k));
    assert Shifted(k) == k - t;
    Pow2Add(k - t, t);
    assert Pow2(k) == m * Pow2(t);
    Pow2Mono(4, k);
    Larger(m, s, Pow2(t));
    assert Pow2(k + 1) == 2 * Pow2(k) by { Next(k); }
    LogIs(size, k);
    assert size == m * (Pow2(t) + s) + 0;
    Unique(size, m, Pow2(t) + s, 0);
    Unique(Pow2(t) + s, Pow2(t), 1, s);
  }

  lemma {:induction false} Next(k: nat)
    ensures Pow2(k + 1) == 2 * Pow2(k)
  {
  }

  /**
   Every request up to the largest is served by a class that is large enough, and the next smaller
   class would not be: less than one step is wasted.
   */
  lemma {:induction false} AdjustLocates(request: nat)
    requires 0 < request <= MAX_SIZE
    ensures var a := Adjust(request);
      MIN_SIZE <= a <= MAX_SIZE && request <= a && ClassOk(PoolFor(request)) && ClassSize(PoolFor(request)) == a
    ensures request >= MIN_SIZE ==> Adjust(request) < request + Pow2(Shifted(Log2(request)))
  {
    hide Log2, Pow2, Locate, ClassSize, ClassOk, Shifted, AlignUp;
    var size := if request < MIN_SIZE then MIN_SIZE else request;
    var k := LogOf(size);
    LogIs(size, k);
    AlignFacts(size, Pow2(Shifted(k)));
    AdjustAt(size, k);
  }

  lemma {:induction false} AdjustAt(size: nat, k: nat)
    requires MIN_SIZE <= size <= MAX_SIZE && 4 <= k <= 11 && Pow2(k) <= size < Pow2(k + 1)
    ensures var a := AlignUp(size, Pow2(Shifted(k)));
      MIN_SIZE <= a <= MAX_SIZE && ClassOk(Locate(a)) && ClassSize(Locate(a)) == a
  {
    hide Log2, Pow2, Locate, ClassSize, ClassOk, AlignUp;
    var t := Min(k - 4, 2);
    var m, p := Pow2(k - t), Pow2(t);
    Pow2Add(k - t, t);
    Next(k);
    AlignFacts(size, m);
    var a := AlignUp(size, m);
    var q := Quotient(a, m);
    AlignedAt(k, t, m, p, size, a, q);
  }

  lemma {:induction false} Quotient(a: nat, m: nat) returns (q: nat)
    requires m > 0 && a % m == 0
    ensures a == m * q
  {
    q := a / m;
  }

  lemma {:induction false} AlignedAt(k: nat, t: nat, m: nat, p: nat, size: nat, a: nat, q: nat)
    requires MIN_SIZE <= size <= MAX_SIZE && 4 <= k <= 11 && Pow2(k) <= size < 2 * Pow2(k) && Pow2(k) == m * p
      && Pow2(k + 1) == 2 * Pow2(k)
    requires t == Min(k - 4, 2) && m == Pow2(k - t) && p == Pow2(t) && size <= a < size + m && a == m * q
    ensures MIN_SIZE <= a <= MAX_SIZE && ClassOk(Locate(a)) && ClassSize(Locate(a)) == a
  {
    hide Log2, Pow2, Locate, ClassSize, ClassOk;
    Multiples(m, q, p);
    Largest(k, a, q);
    if q < 2 * p {
      Times(m, p, q);
      LocateIs(k, q - p, a);
    } else {
      Times(m, 0, p);
      assert m * q == 2 * (m * p) by { Double(m, p); }
      NextClass(k, a);
    }
  }

  lemma {:induction false} Double(m: nat, p: nat)
    ensures m * (2 * p) == 2 * (m * p)
  {
  }

  lemma {:induction false} Times(m: nat, p: nat, q: nat)
    requires p <= q
    ensures m * q == m * p + m * (q - p)
  {
  }

  lemma {:induction false} Largest(k: nat, a: nat, q: nat)
    requires 4 <= k <= 11 && a == Pow2(k - Min(k - 4, 2)) * q && q <= 2 * Pow2(Min(k - 4, 2))
      && a < MAX_SIZE + Pow2(k - Min(k - 4, 2))
    ensures a <= MAX_SIZE && (q == 2 * Pow2(Min(k - 4, 2)) ==> k <= 10)
  {
    hide Pow2;
    Powers();
  }

  lemma {:induction false} Multiples(m: nat, q: nat, p: nat)
    requires m > 0 && m * p <= m * q < 2 * (m * p) + m
    ensures p <= q <= 2 * p
  {
    assert m * (2 * p) == 2 * (m * p);
    if q < p { Larger(m, q, p); }
    if q > 2 * p { Larger(m, 2 * p, q); }
  }

  lemma {:induction false} NextClass(k: nat, a: nat)
    requires 4 <= k <= 10 && a == Pow2(k + 1)
    ensures a >= 16 && ClassOk(Locate(a)) && ClassSize(Locate(a)) == a
  {
    hide Log2, Pow2, Locate, ClassSize, ClassOk;
    Powers();
    Pow2Mono(0, Min(k - 3, 2));
    assert Pow2(Shifted(k + 1)) * 0 == 0;
    LocateIs(k + 1, 0, a);
  }

  /** The table of pools: one of 16 bytes, two from 32 bytes on, and from 64 bytes on four to each doubling. */
  lemma {:induction false} ClassTable(c: Class)
    ensures ClassOk(c) <==> c.f < 8 && c.s < if c.f == 0 then 1 else if c.f == 1 then 2 else 4
    ensures ClassOk(c) && c.f == 0 ==> ClassSize(c) == 16
    ensures ClassOk(c) && c.f == 1 ==> ClassSize(c) == 32 + 16 * c.s
    ensures ClassOk(c) && c.f >= 2 ==> ClassSize(c) == Pow2(c.f + 2) * (4 + c.s)
    ensures ClassOk(c) ==> ClassSize(c) % 16 == 0
  {
    hide Pow2;
    Powers();
    if ClassOk(c) && c.f >= 2 {
      Next(c.f + 2);
      Next(c.f + 3);
      var m := Pow2(c.f + 2);
      assert m * (4 + c.s) == 4 * m + m * c.s;
    }
  }

  /** A class lies between two powers of two, at a multiple of the distance between classes there. */
  lemma {:induction false} ClassWithin(c: Class)
    requires ClassOk(c)
    ensures var k := c.f + 4; var m := Pow2(Shifted(k)); var n := Pow2(Min(c.f, 2)) + c.s;
      Pow2(k) <= ClassSize(c) < Pow2(k + 1) && ClassSize(c) == m * n
  {
    hide Pow2;
    var k, t := c.f + 4, Min(c.f, 2);
    var m, p := Pow2(k - t), Pow2(t);
    Pow2Add(k - t, t);
    Next(k);
    Larger(m, c.s, p);
    assert m * (p + c.s) == m * p + m * c.s;
  }

  /** The pool that serves a request is the smallest one with blocks that are large enough. */
  lemma {:induction false} BestFit(request: nat, c: Class)
    requires 0 < request <= MAX_SIZE && ClassOk(c) && ClassSize(c) >= request
    ensures ClassSize(PoolFor(request)) <= ClassSize(c)
  {
    hide Log2, Pow2, Locate, ClassSize, ClassOk, AlignUp, Shifted;
    AdjustLocates(request);
    ClassWithin(c);
    var size := if request < MIN_SIZE then MIN_SIZE else request;
    var k := LogOf(size);
    var j := c.f + 4;
    LogIs(size, k);
    Powers();
    Pow2Mono(4, j);
    var m := Pow2(Shifted(k));
    AlignFacts(size, m);
    if j == k {
      Aligned(size, m, Pow2(Min(c.f, 2)) + c.s);
    } else if j > k {
      Pow2Mono(k + 1, j);
      Octave(size, k);
    } else {
      Pow2Mono(j + 1, k);
    }
  }

  /** The next multiple is the least one that is not smaller. */
  lemma {:induction false} Aligned(x: nat, m: nat, n: nat)
    requires m > 0 && x <= m * n
    ensures AlignUp(x, m) <= m * n
  {
    hide AlignUp;
    AlignFacts(x, m);
    var q := Quotient(AlignUp(x, m), m);
    if q > n { Larger(m, n, q); }
  }

  lemma {:induction false} Octave(size: nat, k: nat)
    requires 4 <= k <= 11 && Pow2(k) <= size < Pow2(k + 1)
    ensures AlignUp(size, Pow2(Shifted(k))) <= Pow2(k + 1)
  {
    hide Pow2, AlignUp;
    var t := Min(k - 4, 2);
    var m, p := Pow2(k - t), Pow2(t);
    Pow2Add(k - t, t);
    Next(k);
    assert m * (2 * p) == 2 * (m * p);
    Aligned(size, m, 2 * p);
  }
}
