/**
 Powers of two and aligned blocks.
 */
module Dyadic {

  function Pow2(k: nat): (r: nat)
    ensures r >= 1
  {
    if k == 0 then 1 else 2 * Pow2(k - 1)
  }

  lemma {:induction false} Pow2Mono(j: nat, k: nat)
    requires j <= k
    ensures Pow2(j) <= Pow2(k)
    ensures j < k ==> 2 * Pow2(j) <= Pow2(k)
    decreases k
  {
    if j < k {
      Pow2Mono(j, k - 1);
    }
  }

  lemma {:induction false} Pow2Add(j: nat, k: nat)
    ensures Pow2(j + k) == Pow2(j) * Pow2(k)
    decreases k
  {
    if k > 0 {
      Pow2Add(j, k - 1);
    }
  }

  /** `fls(n) - 1`: the position of the highest bit that is set. */
  function Log2(n: nat): (k: nat)
    requires n >= 1
    ensures Pow2(k) <= n < Pow2(k + 1)
  {
    if n == 1 then 0 else 1 + Log2(n / 2)
  }

  /** The position of the highest bit is the only one between whose powers a number lies. */
  lemma {:induction false} Log2Unique(n: nat, k: nat)
    requires n >= 1 && Pow2(k) <= n < Pow2(k + 1)
    ensures Log2(n) == k
  {
    var l := Log2(n);
    if l < k { Pow2Mono(l + 1, k); } else if k < l { Pow2Mono(k + 1, l); }
  }

  /** The low `k` bits of `p` are clear: `p` is a multiple of 2^k. */
  predicate Aligned(p: nat, k: nat)
    decreases k
  {
    k == 0 || (p % 2 == 0 && Aligned(p / 2, k - 1))
  }

  /** `p ^ (1 << k)`: bit `k` of `p` flipped. */
  function Buddy(p: nat, k: nat): nat
    decreases k
  {
    if k == 0 then (if p % 2 == 0 then p + 1 else p - 1) else 2 * Buddy(p / 2, k - 1) + p % 2
  }

  /** `p & (p ^ (1 << k))` */
  function Low(p: nat, k: nat): nat {
    if p <= Buddy(p, k) then p else Buddy(p, k)
  }

  /** `p | (p ^ (1 << k))` */
  function High(p: nat, k: nat): nat {
    if p <= Buddy(p, k) then Buddy(p, k) else p
  }

  /** Alignment in the usual sense. */
  lemma {:induction false} AlignedMultiple(p: nat, k: nat)
    ensures Aligned(p, k) <==> exists m: nat :: p == m * Pow2(k)
    decreases k
  {
    hide Aligned;
    if Aligned(p, k) { var m := MultipleOf(p, k); }
    if m: nat :| p == m * Pow2(k) { IsMultiple(m, k); }
  }

  lemma {:induction false} MultipleOf(p: nat, k: nat) returns (m: nat)
    requires Aligned(p, k)
    ensures p == m * Pow2(k)
    decreases k
  {
    if k == 0 {
      m := p;
    } else {
      m := MultipleOf(p / 2, k - 1);
      Twice(m, Pow2(k - 1));
    }
  }

  lemma {:induction false} IsMultiple(m: nat, k: nat)
    ensures Aligned(m * Pow2(k), k)
    decreases k
  {
    if k > 0 {
      IsMultiple(m, k - 1);
      Twice(m, Pow2(k - 1));
    }
  }

  lemma {:induction false} Twice(m: nat, d: nat)
    ensures m * (2 * d) == 2 * (m * d)
  {
  }

  /** An aligned block halves into two aligned buddies. */
  lemma {:induction false} Halves(p: nat, k: nat)
    requires Aligned(p, k + 1)
    ensures Aligned(p, k) && Aligned(p + Pow2(k), k)
    ensures Buddy(p, k) == p + Pow2(k) && Buddy(p + Pow2(k), k) == p
    decreases k
  {
    if k > 0 {
      Halves(p / 2, k - 1);
      assert (p + Pow2(k)) / 2 == p / 2 + Pow2(k - 1);
    }
  }

  /** A block is the lower or the upper half of one of twice its size. */
  lemma {:induction false} HalfOf(p: nat, k: nat)
    requires Aligned(p, k)
    ensures Aligned(p, k + 1) || (p >= Pow2(k) && Aligned(p - Pow2(k), k + 1))
    decreases k
  {
    if k > 0 {
      HalfOf(p / 2, k - 1);
      if !Aligned(p, k + 1) {
        assert p / 2 - Pow2(k - 1) == (p - Pow2(k)) / 2;
      }
    } else {
      assert p % 2 == 0 ==> Aligned(p, 1);
      assert p % 2 == 1 ==> (p - 1) % 2 == 0 && Aligned(p - 1, 1);
    }
  }

  /** Two aligned buddies form an aligned block. */
  lemma {:induction false} Joined(p: nat, k: nat)
    requires Aligned(p, k)
    ensures Aligned(Low(p, k), k + 1) && High(p, k) == Low(p, k) + Pow2(k) && Aligned(Buddy(p, k), k)
    ensures Buddy(Low(p, k), k) == High(p, k) && Buddy(High(p, k), k) == Low(p, k)
    ensures Buddy(Buddy(p, k), k) == p && Buddy(p, k) != p
  {
    hide Pow2, Aligned, Buddy;
    HalfOf(p, k);
    Halves(if Aligned(p, k + 1) then p else p - Pow2(k), k);
  }

  lemma {:induction false} AlignedDown(p: nat, j: nat, k: nat)
    requires j <= k && Aligned(p, k)
    ensures Aligned(p, j)
    decreases k
  {
    if j < k {
      Halves(p, k - 1);
      AlignedDown(p, j, k - 1);
    }
  }

  /** Aligned blocks that meet are nested. */
  lemma {:induction false} Nested(p: nat, j: nat, q: nat, k: nat, x: nat)
    requires j <= k && Aligned(p, j) && Aligned(q, k)
    requires p <= x < p + Pow2(j) && q <= x < q + Pow2(k)
    ensures q <= p && p + Pow2(j) <= q + Pow2(k)
    decreases k
  {
    if j > 0 {
      Nested(p / 2, j - 1, q / 2, k - 1, x / 2);
    }
  }

  lemma {:induction false} AlignedSum(p: nat, q: nat, k: nat)
    requires Aligned(p, k) && Aligned(q, k)
    ensures Aligned(p + q, k)
    decreases k
  {
    if k > 0 {
      AlignedSum(p / 2, q / 2, k - 1);
    }
  }

  lemma {:induction false} Pow2Aligned(j: nat, k: nat)
    requires j <= k
    ensures Aligned(Pow2(k), j)
    decreases k
  {
    if j > 0 {
      Pow2Aligned(j - 1, k - 1);
    }
  }
}
