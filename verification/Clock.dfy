/**
 Fixed-point conversion between clock cycles and nanoseconds: the choice of factor and shift in
 include/clocksource/clocksource.h and include/clockevent/clockevent.h, the conversions with them,
 and the programming of the next event in driver/clockevent.c.
 */
module Clock {
  import opened Dyadic

  const P32: nat := 0x1_0000_0000
  const P64: nat := 0x1_0000_0000_0000_0000
  const NSEC_PER_SEC: nat := 1_000_000_000

  /** The factor for a shift: `to * 2^sft / from`, rounded to the nearest. */
  function Rounded(from: nat, to: nat, sft: nat): nat
    requires from > 0
  {
    (to * Pow2(sft) + from / 2) / from
  }

  /** The number of bits of `n` */
  function Bits(n: nat): nat {
    if n == 0 then 0 else 1 + Bits(n / 2)
  }

  /** How many bits a factor may have for a range of `n` input values */
  function Room(n: nat): (r: int) {
    32 - Bits(n / P32)
  }

  lemma {:induction false} PowersKnown()
    ensures Pow2(32) == P32 && Pow2(64) == P64
  {
    hide Pow2;
    PowerSmall();
    Pow2Add(4, 4);
    Pow2Add(8, 8);
    Pow2Add(16, 16);
    Pow2Add(32, 32);
  }

  lemma {:induction false} PowerSmall()
    ensures Pow2(4) == 16 && Pow2(1) == 2 && Pow2(0) == 1
  {
    assert Pow2(2) == 4;
    assert Pow2(3) == 8;
  }

  lemma {:induction false} BitsBound(n: nat, k: nat)
    ensures n < Pow2(Bits(n)) && (n < Pow2(k) ==> Bits(n) <= k)
  {
    if n > 0 {
      BitsBound(n / 2, if k > 0 then k - 1 else 0);
    }
  }

  /** The range and a factor with so few bits multiply to less than 2^64. */
  lemma {:induction false} RoomFits(n: nat, mult: nat, cycles: nat)
    requires n < P64 && cycles <= n
    ensures 0 <= Room(n) <= 32 && (mult < Pow2(Room(n)) ==> cycles * mult < P64)
  {
    hide Pow2, Bits;
    var b := Bits(n / P32);
    PowersKnown();
    BitsBound(n / P32, 32);
    if mult < Pow2(Room(n)) {
      Pow2Add(b, 32);
      assert n < Pow2(b + 32);
      Pow2Add(b + 32, 32 - b);
      Below(cycles, Pow2(b + 32), mult, Pow2(32 - b));
    }
  }

  lemma {:induction false} Below(a: nat, b: nat, c: nat, d: nat)
    requires a < b && c < d
    ensures a * c < b * d
  {
    assert a * c <= a * d;
    assert a * d < b * d;
  }

  /** The factor is off by at most a half. */
  lemma {:induction false} RoundedNear(from: nat, to: nat, sft: nat)
    requires from > 0
    ensures var m := Rounded(from, to, sft); 0 - from <= 2 * (m * from - to * Pow2(sft)) <= from
  {
    var x := to * Pow2(sft) + from / 2;
    Quotient(x, from);
  }

  lemma {:induction false} Quotient(x: nat, d: nat)
    requires d > 0
    ensures x / d * d <= x < x / d * d + d
  {
    assert x == d * (x / d) + x % d;
  }

  /** How the two roundings add up, when everything is multiplied by `from * 2^(sft+1)`. */
  lemma {:induction false} ConversionNear(from: nat, to: nat, p: nat, mult: nat, cycles: nat)
    requires from > 0 && p > 0 && 0 - from <= 2 * (mult * from - to * p) <= from
    ensures var r := cycles * mult / p;
      -(cycles * from + 2 * p * from) <= 2 * p * (r * from - cycles * to) <= cycles * from + 2 * p * from
  {
    var r := cycles * mult / p;
    Quotient(cycles * mult, p);
    FactorError(from, to, p, mult, cycles);
    ShiftError(r, p, cycles * mult, from);
    Combined(cycles * mult * from, p, r * from, cycles * to, from, cycles * from);
  }

  lemma {:induction false} FactorError(from: nat, to: nat, p: nat, mult: nat, cycles: nat)
    requires 0 - from <= 2 * (mult * from - to * p) <= from
    ensures -(cycles * from) <= 2 * (cycles * mult * from - p * (cycles * to)) <= cycles * from
  {
    var d := mult * from - to * p;
    Times(cycles, 0 - from, 2 * d, from);
    Spread(cycles, mult, from, to, p);
    assert cycles * (2 * d) == 2 * (cycles * d);
    assert cycles * (0 - from) == -(cycles * from);
    Swap(cycles, to, p);
  }

  lemma {:induction false} ShiftError(r: nat, p: nat, a: nat, from: nat)
    requires r * p <= a < r * p + p
    ensures p * (r * from) <= a * from <= p * (r * from) + p * from
  {
    Times(from, r * p, a, r * p + p);
    assert from * (r * p + p) == from * (r * p) + from * p;
    Swap(from, r, p);
  }

  lemma {:induction false} Combined(x: int, p: int, r: int, y: int, from: int, c: int)
    requires -c <= 2 * (x - p * y) <= c && p * r <= x <= p * r + p * from
    ensures -(c + 2 * p * from) <= 2 * p * (r - y) <= c + 2 * p * from && 2 * p * from >= 0
  {
    Distribute(p, r, y);
    assert 2 * p * from == 2 * (p * from);
  }

  lemma {:induction false} Times(k: nat, a: int, b: int, c: int)
    requires a <= b <= c
    ensures k * a <= k * b <= k * c
  {
  }

  lemma {:induction false} Swap(a: int, b: int, c: int)
    ensures a * (b * c) == c * (b * a) && a * b * c == a * (c * b)
  {
  }

  lemma {:induction false} Spread(c: int, m: int, f: int, t: int, p: int)
    ensures c * (m * f - t * p) == c * m * f - p * (c * t)
  {
    assert c * (m * f - t * p) == c * (m * f) - c * (t * p);
    assert c * (m * f) == c * m * f;
    assert c * (t * p) == c * t * p;
    assert c * t * p == p * (c * t);
  }

  lemma {:induction false} Distribute(p: int, a: int, b: int)
    ensures 2 * p * (a - b) == 2 * (p * a) - 2 * (p * b)
  {
  }

  lemma {:induction false} RoundedMono(from: nat, to: nat, s: nat, t: nat)
    requires from > 0 && s <= t
    ensures Rounded(from, to, s) <= Rounded(from, to, t)
  {
    hide Pow2;
    Pow2Mono(s, t);
    Times(to, Pow2(s), Pow2(s), Pow2(t));
    DivMono(to * Pow2(s) + from / 2, to * Pow2(t) + from / 2, from);
  }

  lemma {:induction false} DivMono(a: nat, b: nat, d: nat)
    requires d > 0 && a <= b
    ensures a / d <= b / d
  {
    Quotient(a, d);
    Quotient(b, d);
    if a / d > b / d {
      Gap(d, b / d, a / d);
    }
  }

  lemma {:induction false} Gap(d: nat, p: nat, q: nat)
    requires p < q
    ensures p * d + d <= q * d
  {
    Times(d, p + 1, p + 1, q);
    assert d * (p + 1) == p * d + d;
  }

  /** No step of the search leaves 64 bits. */
  lemma {:induction false} SearchFits(from: nat, to: nat, sft: nat)
    requires 0 < from < P32 && to < P32 && sft <= 32
    ensures to * Pow2(sft) + from / 2 < P64
  {
    hide Pow2;
    PowersKnown();
    Pow2Mono(sft, 32);
    Times(to, Pow2(sft), Pow2(sft), P32);
    assert to * P32 <= (P32 - 1) * P32;
  }

  // ---------------------------------------------------------------- the code

  /**
   What the search finds: the largest shift whose factor leaves room for the range.  Where there is
   none it stops at zero, with the factor for one.
   */
  ghost predicate Found(from: nat, to: nat, n: nat, mult: nat, shift: nat)
    requires from > 0 && 0 <= Room(n)
  {
    && shift <= 32
    && (shift == 0 <==> Rounded(from, to, 1) >= Pow2(Room(n)))
    && (shift == 0 ==> mult == Rounded(from, to, 1))
    && (shift > 0 ==> mult == Rounded(from, to, shift) && mult < Pow2(Room(n)))
    && (forall t | shift < t <= 32 :: Rounded(from, to, t) >= Pow2(Room(n)))
  }

  /** The two loops that are in `clocksource_calc_mult_shift` and in `clockevent_calc_mult_shift` */
  method Search(from: nat, to: nat, n: nat) returns (mult: nat, shift: nat)
    requires 0 < from < P32 && to < P32 && n < P64
    ensures 0 <= Room(n) <= 32 && Found(from, to, n, mult, shift) && mult < P64
  {
    hide Pow2, Bits, Rounded;
    var tmp: nat, sftacc := n / P32, 32;
    RoomFits(n, 0, 0);
    while tmp != 0
      invariant sftacc == 32 - Bits(n / P32) + Bits(tmp)
      decreases tmp
    {
      BitsStep(tmp);
      tmp := tmp / 2;
      sftacc := sftacc - 1;
    }
    BitsNone();
    var sft := 32;
    tmp := 0;
    while sft > 0
      invariant 0 <= sft <= 32 && tmp < P64 && (sft < 32 ==> tmp == Rounded(from, to, sft + 1))
      invariant forall t | sft < t <= 32 :: Rounded(from, to, t) >= Pow2(sftacc)
    {
      SearchFits(from, to, sft);
      tmp := to * Pow2(sft) % P64;
      tmp := (tmp + from / 2) % P64;
      tmp := tmp / from;
      RoundedIs(from, to, sft, tmp);
      if tmp / Pow2(sftacc) == 0 {
        QuotientNone(tmp, Pow2(sftacc));
        RoundedMono(from, to, 1, sft);
        break;
      }
      QuotientNone(tmp, Pow2(sftacc));
      sft := sft - 1;
    }
    mult, shift := tmp, sft;
  }

  lemma {:induction false} BitsStep(n: nat)
    requires n > 0
    ensures Bits(n) == Bits(n / 2) + 1
  {
  }

  lemma {:induction false} BitsNone()
    ensures Bits(0) == 0
  {
  }

  lemma {:induction false} RoundedIs(from: nat, to: nat, sft: nat, m: nat)
    requires from > 0 && to * Pow2(sft) + from / 2 < P64 && m == (to * Pow2(sft) % P64 + from / 2) % P64 / from
    ensures m == Rounded(from, to, sft) && m < P64
  {
    hide Pow2;
    assert to * Pow2(sft) % P64 == to * Pow2(sft);
    Quotient(to * Pow2(sft) + from / 2, from);
    Times(m, 1, 1, from);
  }

  lemma {:induction false} QuotientNone(x: nat, d: nat)
    requires d > 0
    ensures x / d == 0 <==> x < d
  {
    Quotient(x, d);
  }

  /** `clocksource_calc_mult_shift` */
  method ClocksourceFactors(from: nat, to: nat, maxsec: nat) returns (mult: nat, shift: nat)
    requires 0 < from < P32 && to < P32 && maxsec < P32
    ensures maxsec * from < P64 && 0 <= Room(maxsec * from) <= 32 && mult < P32
    ensures to % from == 0 ==> shift == 0 && mult * from == to
    ensures to % from != 0 ==> Found(from, to, maxsec * from, mult, shift)
  {
    hide Pow2, Bits, Rounded;
    RangeFits(maxsec, from);
    RoomFits(maxsec * from, 0, 0);
    var q := to / from;
    Quotient(to, from);
    Exact(to, from);
    if q * from == to {
      Times(q, 1, 1, from);
      return q, 0;
    }
    mult, shift := Search(from, to, maxsec * from);
    assert from >= 2;
    FactorFits(from, to, maxsec * from, mult, shift);
    mult := mult % P32;
  }

  lemma {:induction false} RangeFits(a: nat, b: nat)
    requires a < P32 && b < P32
    ensures a * b < P64
  {
    Below(a, P32, b, P32);
  }

  lemma {:induction false} Exact(to: nat, from: nat)
    requires from > 0
    ensures to % from == 0 <==> to / from * from == to
  {
    assert to == from * (to / from) + to % from;
  }

  lemma {:induction false} FactorFits(from: nat, to: nat, n: nat, mult: nat, shift: nat)
    requires from >= 2 && to < P32 && 0 <= Room(n) <= 32 && Found(from, to, n, mult, shift)
    ensures mult < P32
  {
    hide Pow2, Bits, Rounded;
    PowersKnown();
    PowerSmall();
    if shift > 0 {
      Pow2Mono(Room(n), 32);
    } else {
      SmallFactor(from, to);
    }
  }

  lemma {:induction false} SmallFactor(from: nat, to: nat)
    requires from >= 2 && to < P32
    ensures Rounded(from, to, 1) < P32
  {
    hide Pow2;
    PowerSmall();
    var x := to * 2 + from / 2;
    Quotient(x, from);
    var m := x / from;
    Times(to, 2, 2, from);
    if m > to {
      Gap(from, to, m);
    }
  }

  /** `clocksource_delta2ns`, in 64 bits */
  function Delta2ns(mult: nat, shift: nat, delta: nat): nat {
    Shifted(delta * mult % P64, Pow2(shift))
  }

  function Shifted(x: nat, p: nat): nat
    requires p > 0
  {
    x / p
  }

  /**
   For every number of cycles in the range the product stays within 64 bits, and the result is
   within cycles / 2^(shift+1) + 1 of the exact `cycles * to / from`; both sides are multiplied by
   `from * 2^(shift+1)`.
   */
  lemma {:induction false} ConversionInRange(from: nat, to: nat, maxsec: nat, mult: nat, shift: nat, cycles: nat)
    requires 0 < from < P32 && to < P32 && maxsec < P32 && maxsec * from < P64 && 0 <= Room(maxsec * from) <= 32
    requires to % from != 0 && Found(from, to, maxsec * from, mult, shift) && shift > 0 && cycles <= maxsec * from
    ensures cycles * mult < P64
    ensures var r, p := Delta2ns(mult, shift, cycles), Pow2(shift);
      -(cycles * from + 2 * p * from) <= 2 * p * (r * from - cycles * to) <= cycles * from + 2 * p * from
  {
    hide Pow2, Bits, Rounded, Delta2ns, Room, Found;
    FoundFactor(from, to, maxsec * from, mult, shift);
    RoomFits(maxsec * from, mult, cycles);
    RoundedNear(from, to, shift);
    ConversionNear(from, to, Pow2(shift), mult, cycles);
    NothingLost(mult, shift, cycles);
  }

  lemma {:induction false} FoundFactor(from: nat, to: nat, n: nat, mult: nat, shift: nat)
    requires from > 0 && 0 <= Room(n) && Found(from, to, n, mult, shift) && shift > 0
    ensures mult == Rounded(from, to, shift) && mult < Pow2(Room(n))
  {
  }

  lemma {:induction false} NothingLost(mult: nat, shift: nat, cycles: nat)
    requires cycles * mult < P64
    ensures Delta2ns(mult, shift, cycles) == cycles * mult / Pow2(shift)
  {
    hide Pow2;
    assert cycles * mult % P64 == cycles * mult;
  }

  /** When the ratio is whole the conversion is exact. */
  lemma {:induction false} ConversionExact(from: nat, to: nat, maxsec: nat, mult: nat, cycles: nat)
    requires 0 < from < P32 && to < P32 && maxsec < P32 && mult * from == to && cycles <= maxsec * from
    ensures cycles * mult < P64 && Delta2ns(mult, 0, cycles) * from == cycles * to
  {
    PowerSmall();
    Times(mult, cycles, cycles, maxsec * from);
    assert mult * (maxsec * from) == maxsec * to by { Swap(mult, maxsec, from); }
    RangeFits(maxsec, to);
    assert cycles * mult % P64 == cycles * mult;
    assert cycles * mult * from == cycles * (mult * from);
  }

  /** The search can fail: here it leaves the factor for a shift of one together with a shift of zero. */
  lemma {:induction false} SearchCanFail()
    ensures var n := (P32 - 1) * (P32 - 1);
      Room(n) == 0 && Found(P32 - 1, P32 - 2, n, 2, 0) && Delta2ns(2, 0, 10) == 20 && 10 * (P32 - 2) / (P32 - 1) == 9
  {
    hide Bits, Pow2, Rounded;
    var n := (P32 - 1) * (P32 - 1);
    PowerSmall();
    BitsOf(32);
    assert n / P32 == P32 - 2;
    RoundedTwo();
    var f, g: nat := P32 - 1, P32 - 2;
    forall t | 0 < t <= 32 ensures Rounded(f, g, t) >= 1 {
      RoundedMono(f, g, 1, t);
    }
  }

  lemma {:induction false} RoundedTwo()
    ensures Rounded(P32 - 1, P32 - 2, 1) == 2
  {
    hide Pow2;
    PowerSmall();
  }

  lemma {:induction false} BitsOf(k: nat)
    requires k >= 2
    ensures Pow2(k) >= 4 && Bits(Pow2(k) - 2) == k
    ensures k == 32 ==> Bits(P32 - 2) == 32
  {
    assert Pow2(k) == 2 * Pow2(k - 1);
    if k == 2 {
      assert Bits(2) == 2;
    } else {
      BitsOf(k - 1);
      OddBits(k - 1);
    }
    if k == 32 { PowersKnown(); }
  }

  lemma {:induction false} OddBits(k: nat)
    requires k >= 1
    ensures Pow2(k) >= 2 && Bits(Pow2(k) - 1) == k && (2 * Pow2(k) - 2) / 2 == Pow2(k) - 1
  {
    if k > 1 { OddBits(k - 1); }
  }

  // ---------------------------------------------------------------- events

  class ClockEvent {
    var mult: nat
    var shift: nat
    var minDelta: nat
    var maxDelta: nat

    ghost predicate Factors()
      reads this
    {
      mult < P32 && shift <= 32
    }

    /** The limits as the driver sets them */
    ghost predicate Ready()
      reads this
    {
      Factors() && mult > 0 && minDelta == Ticks2ns(mult, shift, 1) && maxDelta == Ticks2ns(mult, shift, P64 - 1)
    }

    /** `clockevent_calc_mult_shift` */
    method CalcFactors(freq: nat, minsec: nat)
      requires freq < P32 && minsec < P32
      modifies this`mult, this`shift
      ensures Factors() && 0 <= Room(minsec * NSEC_PER_SEC) <= 32
      ensures Found(NSEC_PER_SEC, freq, minsec * NSEC_PER_SEC, mult, shift)
    {
      hide Pow2, Bits, Rounded, Found;
      RangeFits(minsec, NSEC_PER_SEC);
      var m, s := Search(NSEC_PER_SEC, freq, minsec * NSEC_PER_SEC);
      FoundShift(NSEC_PER_SEC, freq, minsec * NSEC_PER_SEC, m, s);
      FactorFits(NSEC_PER_SEC, freq, minsec * NSEC_PER_SEC, m, s);
      mult, shift := m % P32, s;
    }

    /** `clockevent_delta2ns` */
    method Delta2ns(latch: nat) returns (ns: nat)
      requires Factors() && latch < P64
      modifies this`mult
      ensures mult == (if old(mult) == 0 then 1 else old(mult)) && ns == Ticks2ns(mult, shift, latch)
    {
      hide Pow2;
      ShiftBack(latch, Pow2(shift));
      var clc := latch * Pow2(shift) % P64;
      if mult == 0 {
        mult := 1;
      }
      var rnd := mult - 1;
      if clc / Pow2(shift) != latch {
        clc := P64 - 1;
      }
      if P64 - 1 - clc > rnd && mult <= Pow2(shift) {
        clc := clc + rnd;
      }
      clc := clc / mult;
      ns := if clc > 1000 then clc else 1000;
    }

    /** The limits, as ce_clint_timer_probe sets them */
    method SetLimits()
      requires Factors()
      modifies this
      ensures Ready() && shift == old(shift) && mult == if old(mult) == 0 then 1 else old(mult)
    {
      var lo := Delta2ns(1);
      minDelta := lo;
      var hi := Delta2ns(P64 - 1);
      maxDelta := hi;
    }

    /** `clockevent_set_event_next`; the ticks are what the device is asked to wait. */
    method SetEventNext(now: int, expires: int) returns (ok: bool, ticks: nat)
      requires Ready() && -0x8000_0000_0000_0000 <= now < 0x8000_0000_0000_0000
        && -0x8000_0000_0000_0000 <= expires < 0x8000_0000_0000_0000
      ensures ok <==> now <= expires
      ensures ok ==> ticks >= 1 && exists delta: nat ::
        && Clamped(expires - now, minDelta, maxDelta, delta) && delta * mult < P64
           && ticks == delta * mult / Pow2(shift)
    {
      hide Pow2, Ticks2ns;
      if expires < now {
        return false, 0;
      }
      var delta: nat := expires - now;
      if delta > maxDelta {
        delta := maxDelta;
      }
      if delta < minDelta {
        delta := minDelta;
      }
      LimitsFit(mult, shift);
      EventFits(mult, shift, delta);
      assert Clamped(expires - now, minDelta, maxDelta, delta);
      ok, ticks := true, delta * mult % P64 / Pow2(shift);
    }
  }

  lemma {:induction false} FoundShift(from: nat, to: nat, n: nat, mult: nat, shift: nat)
    requires from > 0 && 0 <= Room(n) && Found(from, to, n, mult, shift)
    ensures shift <= 32
  {
  }

  /** The nearest time to `d` between the limits */
  ghost predicate Clamped(d: int, lo: nat, hi: nat, r: nat) {
    lo <= r <= hi && (lo <= d <= hi ==> r == d) && (d < lo ==> r == lo) && (d > hi ==> r == hi)
  }

  /** `clockevent_delta2ns` as a function of the factors */
  function Ticks2ns(mult: nat, shift: nat, latch: nat): nat
    requires 0 < mult < P32
  {
    AtLeast(Shifted(RoundUp(mult, Pow2(shift), Capped(latch * Pow2(shift))), mult))
  }

  function Capped(x: nat): nat {
    if x < P64 then x else P64 - 1
  }

  function RoundUp(mult: nat, p: nat, c: nat): nat
    requires mult > 0
  {
    if P64 - 1 - c > mult - 1 && mult <= p then c + mult - 1 else c
  }

  function AtLeast(x: nat): nat {
    if x > 1000 then x else 1000
  }

  /** Shifting back shows whether the shift has lost anything. */
  lemma {:induction false} ShiftBack(latch: nat, p: nat)
    requires p > 0 && latch < P64
    ensures latch * p % P64 / p == latch <==> latch * p < P64
    ensures latch * p < P64 ==> latch * p % P64 == latch * p
  {
    var x := latch * p;
    Quotient(x % P64, p);
    var q := x % P64 / p;
    if x < P64 {
      assert x % P64 == x;
      if q < latch { Gap(p, q, latch); } else if q > latch { Gap(p, latch, q); }
    } else {
      assert x % P64 <= x - P64;
    }
  }

  lemma {:induction false} LimitsFit(mult: nat, shift: nat)
    requires 0 < mult < P32 && shift <= 32
    ensures Ticks2ns(mult, shift, 1) <= Ticks2ns(mult, shift, P64 - 1) && Ticks2ns(mult, shift, P64 - 1) * mult < P64
    ensures Ticks2ns(mult, shift, 1) * mult >= Pow2(shift)
  {
    hide Pow2;
    PowersKnown();
    Pow2Mono(shift, 32);
    var p := Pow2(shift);
    assert 1 * p == p;
    Times(P64 - 1, 1, 1, p);
    MaxTicks(mult);
    MinTicks(mult, p);
    var d := RoundUp(mult, p, p);
    DivMono(d, P64 - 1, mult);
    assert RoundUp(mult, p, P64 - 1) == P64 - 1;
  }

  lemma {:induction false} MaxTicks(mult: nat)
    requires 0 < mult < P32
    ensures (P64 - 1) / mult > 1000 && (P64 - 1) / mult * mult < P64
  {
    Quotient(P64 - 1, mult);
    var q := (P64 - 1) / mult;
    if q <= 1000 {
      Times(mult, q, q, 1000);
    }
  }

  lemma {:induction false} MinTicks(mult: nat, p: nat)
    requires 0 < mult < P32 && 0 < p <= P32
    ensures AtLeast(Shifted(RoundUp(mult, p, p), mult)) * mult >= p
  {
    var d := RoundUp(mult, p, p);
    Quotient(d, mult);
    var q := d / mult;
    Times(mult, q, q, AtLeast(q));
    Times(mult, 1000, 1000, AtLeast(q));
  }

  lemma {:induction false} EventFits(mult: nat, shift: nat, delta: nat)
    requires 0 < mult < P32 && shift <= 32 && Ticks2ns(mult, shift, 1) <= delta <= Ticks2ns(mult, shift, P64 - 1)
    ensures delta * mult < P64 && delta * mult / Pow2(shift) >= 1
  {
    hide Ticks2ns, Pow2;
    LimitsFit(mult, shift);
    Times(mult, Ticks2ns(mult, shift, 1), delta, Ticks2ns(mult, shift, P64 - 1));
    QuotientNone(delta * mult, Pow2(shift));
  }

  /** A factor may have as many bits as leave room for the range in 64 bits, and never more than 32. */
  lemma {:induction false} RoomIs(n: nat)
    requires n < P64
    ensures 0 <= Room(n) <= 32 && n < Pow2(64 - Room(n)) && (Room(n) < 32 ==> n >= Pow2(63 - Room(n)))
  {
    hide Pow2, Bits;
    PowersKnown();
    var h := n / P32;
    BitsExact(h);
    if Bits(h) > 32 { Pow2Mono(32, Bits(h) - 1); }
    Pow2Add(32, Bits(h));
    Scale(h, Pow2(Bits(h)));
    BitsNone();
    if h > 0 {
      Pow2Add(32, Bits(h) - 1);
      Scale(Pow2(Bits(h) - 1) - 1, h);
    }
  }

  lemma {:induction false} BitsExact(n: nat)
    ensures n < Pow2(Bits(n)) && (n > 0 ==> Bits(n) > 0 && Pow2(Bits(n) - 1) <= n)
  {
    if n > 0 { BitsExact(n / 2); }
  }

  lemma {:induction false} Scale(a: nat, b: nat)
    requires a < b
    ensures P32 * a + P32 <= P32 * b
  {
  }

  /**
   What `clockevent_delta2ns` gives: the ticks as nanoseconds, or 1000 if that is more.  The quotient
   is rounded up where the factor is at most one and the sum fits, and otherwise down; a product that
   does not fit in 64 bits is cut off.
   */
  lemma {:induction false} TicksMean(mult: nat, shift: nat, latch: nat) returns (q: nat)
    requires 0 < mult < P32 && shift <= 32 && latch < P64
    ensures Ticks2ns(mult, shift, latch) == if q > 1000 then q else 1000
    ensures var e := if latch * Pow2(shift) < P64 then latch * Pow2(shift) else P64 - 1;
      if mult <= Pow2(shift) && e + mult < P64 then q * mult >= e > q * mult - mult else q * mult <= e < q * mult + mult
  {
    hide Pow2;
    var p := Pow2(shift);
    var e := Capped(latch * p);
    var c := RoundUp(mult, p, e);
    q := c / mult;
    Quotient(c, mult);
  }

  /** The time for a number of ticks is worth at least that number, unless it was cut off or rounded down. */
  lemma {:induction false} TicksBack(mult: nat, shift: nat, latch: nat)
    requires 0 < mult <= Pow2(shift) && mult < P32 && shift <= 32 && latch * Pow2(shift) + mult < P64
    ensures latch < P64 && Ticks2ns(mult, shift, latch) * mult >= latch * Pow2(shift)
  {
    hide Pow2, Ticks2ns;
    Times(latch, 1, 1, Pow2(shift));
    var q := TicksMean(mult, shift, latch);
    Times(mult, q, q, if q > 1000 then q else 1000);
  }
}
