/**
 `fmod` of user-test/lib/libm/fmod.c on the bit patterns of doubles (section 3.4 of IEEE 754-2008):
 a sign, eleven bits of exponent and 52 bits of fraction.

 The magnitude of a finite double is a whole number of the smallest subnormal, so the exact
 remainder is a remainder of whole numbers.
 */
module Fmod {

  const P52: nat := 0x10_0000_0000_0000
  const P63: nat := 0x8000_0000_0000_0000
  const P64: nat := 0x1_0000_0000_0000_0000
  const EXP_MAX: nat := 0x7ff

  datatype Result = NotANumber | Double(bits: nat)

  // ---------------------------------------------------------------- doubling and halving

  /** `v` doubled `k` times */
  ghost function Up(v: int, k: nat): int {
    if k == 0 then v else 2 * Up(v, k - 1)
  }

  /** `u >> n` */
  function Shr(u: nat, n: nat): nat {
    if n == 0 then u else Shr(u / 2, n - 1)
  }

  /** `u << n` in 64 bits */
  function Shl(u: nat, n: nat): nat
    decreases n
  {
    if n == 0 then u else Shl(2 * u % P64, n - 1)
  }

  /** `a - b` in 64 bits */
  function Sub64(a: nat, b: nat): nat {
    (a - b) % P64
  }

  lemma {:induction false} UpDouble(v: int, k: nat)
    ensures Up(2 * v, k) == Up(v, k + 1)
  {
    if k > 0 { UpDouble(v, k - 1); }
  }

  lemma {:induction false} UpSub(a: int, b: int, k: nat)
    ensures Up(a - b, k) == Up(a, k) - Up(b, k)
  {
    if k > 0 { UpSub(a, b, k - 1); }
  }

  lemma {:induction false} UpOrder(a: int, b: int, k: nat)
    ensures a < b <==> Up(a, k) < Up(b, k)
  {
    if k > 0 { UpOrder(a, b, k - 1); }
  }

  lemma {:induction false} UpZero(k: nat)
    ensures Up(0, k) == 0
  {
    if k > 0 { UpZero(k - 1); }
  }

  lemma {:induction false} UpUp(v: int, j: nat, k: nat)
    ensures Up(Up(v, j), k) == Up(v, j + k)
  {
    if k > 0 { UpUp(v, j, k - 1); }
  }

  lemma {:induction false} UpGrows(v: nat, j: nat, k: nat)
    requires j <= k
    ensures v <= Up(v, j) <= Up(v, k)
  {
    if j < k { UpGrows(v, j, k - 1); } else if k > 0 { UpGrows(v, j - 1, k - 1); }
  }

  lemma {:induction false} ShrUp(v: nat, k: nat)
    ensures Up(v, k) >= 0 && Shr(Up(v, k), k) == v
  {
    if k > 0 { ShrUp(v, k - 1); }
  }

  lemma {:induction false} ShlUp(v: nat, k: nat)
    requires Up(v, k) < P64
    ensures Shl(v, k) == Up(v, k)
    decreases k
  {
    if k > 0 {
      UpDouble(v, k - 1);
      UpGrows(2 * v, 0, k - 1);
      ShlUp(2 * v, k - 1);
    }
  }

  lemma {:induction false} Up12(v: nat)
    ensures Up(v, 12) == 4096 * v
  {
    UpUp(v, 6, 6);
    Up6(v);
    Up6(64 * v);
  }

  lemma {:induction false} Up6(v: nat)
    ensures Up(v, 6) == 64 * v
  {
    assert Up(v, 1) == 2 * v;
    assert Up(v, 2) == 4 * v;
    assert Up(v, 3) == 8 * v;
    assert Up(v, 4) == 16 * v;
    assert Up(v, 5) == 32 * v;
  }

  lemma {:induction false} Up52(v: nat)
    ensures Up(v, 52) == P52 * v
  {
    UpUp(v, 12, 40);
    Up12(v);
    UpUp(4096 * v, 12, 28);
    Up12(4096 * v);
    UpUp(4096 * 4096 * v, 12, 16);
    Up12(4096 * 4096 * v);
    UpUp(4096 * 4096 * 4096 * v, 12, 4);
    Up12(4096 * 4096 * 4096 * v);
    var w := 4096 * 4096 * 4096 * 4096 * v;
    assert Up(w, 1) == 2 * w;
    assert Up(w, 2) == 4 * w;
    assert Up(w, 3) == 8 * w;
    assert Up(w, 4) == 16 * w;
  }

  // ---------------------------------------------------------------- remainders

  /** What is left of `a` when `d` is taken away as often as it can be. */
  ghost function Rem(a: nat, d: nat): (r: nat)
    requires d > 0
    ensures r < d
  {
    if a < d then a else Rem(a - d, d)
  }

  lemma {:induction false} RemIsMod(a: nat, d: nat)
    requires d > 0
    ensures Rem(a, d) == a % d
  {
    if a >= d {
      RemIsMod(a - d, d);
      ModBack(a, d);
    }
  }

  lemma {:induction false} ModBack(a: nat, d: nat)
    requires 0 < d <= a
    ensures (a - d) % d == a % d
  {
    var q, r := a / d, a % d;
    assert a == d * q + r;
    assert a - d == d * (q - 1) + r;
    DivUnique(a - d, d, q - 1, r);
  }

  lemma {:induction false} DivUnique(a: int, d: nat, q: int, r: int)
    requires d > 0 && a == d * q + r && 0 <= r < d
    ensures a % d == r
  {
    var p, s := a / d, a % d;
    assert d * p + s == d * q + r;
    assert d * (p - q) == r - s;
    if p > q { Larger(d, p - q); } else if p < q { Larger(d, q - p); }
  }

  lemma {:induction false} Larger(d: nat, n: nat)
    requires n >= 1
    ensures d * n >= d
  {
  }

  /** Taking away a power of two times the divisor does not change the remainder. */
  lemma {:induction false} RemUp(a: nat, d: nat, k: nat)
    requires d > 0
    ensures Up(d, k) >= 0 && Rem(a + Up(d, k), d) == Rem(a, d)
    decreases k
  {
    UpGrows(d, 0, k);
    if k > 0 {
      UpGrows(d, 0, k - 1);
      RemUp(a, d, k - 1);
      RemUp(a + Up(d, k - 1), d, k - 1);
    }
  }

  lemma {:induction false} RemScaled(a: nat, d: nat, k: nat)
    requires d > 0
    ensures Up(d, k) > 0 && Up(a, k) >= 0 && Rem(Up(a, k), Up(d, k)) == Up(Rem(a, d), k)
    decreases a
  {
    UpGrows(d, 0, k);
    UpGrows(a, 0, k);
    UpOrder(a, d, k);
    if a >= d {
      RemScaled(a - d, d, k);
      UpSub(a, d, k);
    }
  }

  // ---------------------------------------------------------------- doubles

  function Sign(u: nat): nat {
    u / P63
  }

  function Exponent(u: nat): nat {
    u / P52 % 2048
  }

  function Fraction(u: nat): nat {
    u % P52
  }

  predicate IsNaN(u: nat) {
    Exponent(u) == EXP_MAX && Fraction(u) != 0
  }

  predicate IsFinite(u: nat) {
    Exponent(u) != EXP_MAX
  }

  /** The magnitude of a finite double, in units of 2^-1074 */
  ghost function Magnitude(u: nat): (r: nat)
  {
    if Exponent(u) == 0 then Fraction(u) else UpNat(P52 + Fraction(u), Exponent(u) - 1)
  }

  /** The patterns above that of infinity are not numbers, and those below it are finite. */
  lemma {:induction false} Kinds(u: nat)
    ensures IsNaN(u) <==> u % P63 > 0x7ff0_0000_0000_0000
    ensures IsFinite(u) <==> u % P63 < 0x7ff0_0000_0000_0000
  {
    assert P63 == 2048 * P52;
    var f := u % P52;
    assert u / P52 % 2048 == u % P63 / P52 && u % P52 == u % P63 % P52;
  }

  /**
   Where the scale is: the smallest subnormal is one unit, the smallest normal number 2^52, and 1.0 is
   2^1074 units.
   */
  lemma {:induction false} Anchors()
    ensures Magnitude(1) == 1 && Magnitude(0x10_0000_0000_0000) == 0x10_0000_0000_0000
    ensures Magnitude(0x3ff0_0000_0000_0000) == Up(1, 1074) && Magnitude(0x3ff8_0000_0000_0000) == Up(3, 1073)
    ensures !IsFinite(0x7ff0_0000_0000_0000) && IsFinite(0x7fef_ffff_ffff_ffff) && Sign(0x8000_0000_0000_0000) == 1
  {
    hide Up;
    TwoTo52();
    UpUp(1, 52, 1022);
    UpUp(3, 51, 1022);
  }

  lemma {:induction false} TwoTo52()
    ensures Up(1, 52) == P52 && Up(3, 51) == P52 + P52 / 2
  {
    Up12(1);
    UpUp(1, 12, 12);
    Up12(4096);
    UpUp(1, 24, 12);
    Up12(0x100_0000);
    UpUp(1, 36, 12);
    Up12(0x10_0000_0000);
    UpUp(1, 48, 4);
    Up4(0x1_0000_0000_0000);
    UpUp(3, 1, 50);
    UpDouble(3, 50);
    UpSub(4, 1, 51);
    UpUp(1, 51, 1);
    UpUp(1, 2, 51);
    UpFew(1);
  }

  lemma {:induction false} Up4(v: nat)
    ensures Up(v, 4) == 16 * v
  {
    UpFew(v);
    UpUp(v, 2, 2);
    UpFew(4 * v);
  }

  lemma {:induction false} UpFew(v: nat)
    ensures Up(v, 1) == 2 * v && Up(v, 2) == 4 * v
  {
    assert Up(v, 0) == v;
  }

  ghost function UpNat(v: nat, k: nat): (r: nat)
    ensures r == Up(v, k)
  {
    if k == 0 then v else 2 * UpNat(v, k - 1)
  }

  lemma {:induction false} Fields(u: nat)
    requires u < P64
    ensures u == Sign(u) * P63 + Exponent(u) * P52 + Fraction(u) && Sign(u) <= 1 && Exponent(u) <= EXP_MAX
      && Fraction(u) < P52
    ensures u % P63 == Exponent(u) * P52 + Fraction(u) && 2 * u % P64 == 2 * (u % P63)
  {
  }

  lemma {:induction false} FieldsOf(s: nat, e: nat, m: nat)
    requires s <= 1 && e <= EXP_MAX && m < P52
    ensures var u := s * P63 + e * P52 + m; u < P64 && Sign(u) == s && Exponent(u) == e && Fraction(u) == m
  {
    var u := s * P63 + e * P52 + m;
    assert u / P52 == s * 2048 + e;
  }

  /** Patterns without sign are ordered as the magnitudes they stand for. */
  lemma {:induction false} MagnitudeOrder(a: nat, b: nat)
    requires a < P64 && b < P64 && a % P63 < b % P63
    ensures Magnitude(a) < Magnitude(b)
  {
    hide Exponent, Fraction, Sign;
    Fields(a);
    Fields(b);
    var e, f, m, n := Exponent(a), Exponent(b), Fraction(a), Fraction(b);
    if e == f {
      if e > 0 { UpOrder(P52 + m, P52 + n, e - 1); }
    } else {
      UpGrows(P52, 0, f - 1);
      UpOrder(P52, P52 + n + 1, f - 1);
      UpOrder(P52 + n, P52, f - 1);
      if e > 0 {
        UpOrder(P52 + m, 2 * P52, e - 1);
        UpDouble(P52, e - 1);
        UpGrows(P52, e, f - 1);
      }
    }
  }

  // ---------------------------------------------------------------- the code

  /** The number `v * 2^(e-1)` in units of 2^-1074, and again by 2^52 smaller, so that it is whole. */
  ghost function Scaled(v: nat, e: int): (r: nat)
    requires e >= -51
  {
    UpNat(v, e + 51)
  }

  /** A magnitude in the smaller units */
  ghost function Fine(m: nat): nat {
    UpNat(m, 52)
  }

  /** The normalisation of one argument: its leading bit goes to bit 52, and the exponent follows. */
  method Normalize(u: nat) returns (v: nat, e: int)
    requires u < P64 && IsFinite(u) && u % P63 != 0
    ensures P52 <= v < 2 * P52 && -51 <= e < EXP_MAX && Scaled(v, e) == Fine(Magnitude(u))
  {
    hide Shl, Up, Scaled, Fine, Magnitude;
    e := Exponent(u);
    FieldsFacts(u);
    if e == 0 {
      var i := Shl(u, 12);
      ghost var m := Fraction(u);
      FirstShifts(u);
      while i / P63 == 0
        invariant -51 <= e <= 0 && i == 4096 * Up(m, -e) && i < P64
        decreases P64 - i
      {
        MostShifts(m, -e);
        e, i := e - 1, Shl(i, 1);
      }
      v := Shl(u, -e + 1);
      SmallScaled(u, -e);
    } else {
      v := u % P52;
      v := v + P52;
      BigScaled(u);
    }
  }

  lemma {:induction false} FieldsFacts(u: nat)
    requires u < P64
    ensures Exponent(u) <= EXP_MAX && Fraction(u) < P52 && Fraction(u) == u % P52
    ensures u % P63 != 0 && Exponent(u) == 0 ==> Fraction(u) > 0
  {
    Fields(u);
  }

  /** The first shift drops the sign. */
  lemma {:induction false} SignDropped(u: nat, n: nat)
    requires u < P64 && Exponent(u) == 0 && n > 0 && Up(Fraction(u), n) < P64
    ensures Shl(u, n) == Up(Fraction(u), n)
  {
    hide Up, Sign;
    Fields(u);
    UpDouble(Fraction(u), n - 1);
    ShlUp(2 * Fraction(u), n - 1);
    assert 2 * u % P64 == 2 * Fraction(u);
  }

  lemma {:induction false} FirstShifts(u: nat)
    requires u < P64 && Exponent(u) == 0 && Fraction(u) > 0
    ensures Shl(u, 12) == 4096 * Fraction(u) && Up(Fraction(u), 0) == Fraction(u) && Fraction(u) < P52
  {
    hide Shl;
    Up12(Fraction(u));
    SignDropped(u, 12);
  }

  lemma {:induction false} MostShifts(m: nat, k: nat)
    requires 0 < m && 4096 * Up(m, k) < P63
    ensures k < 51 && 4096 * Up(m, k + 1) == 2 * (4096 * Up(m, k)) && 0 < Up(m, k)
    ensures Shl(4096 * Up(m, k), 1) == 2 * (4096 * Up(m, k))
  {
    UpGrows(m, 0, k);
    if k >= 51 {
      UpGrows(m, 51, k);
      UpOrder(0, m, 51);
      Up52(1);
      UpOrder(m, 1, 51);
    }
    var i := 4096 * Up(m, k);
    assert 2 * i % P64 == 2 * i;
    assert Shl(2 * i % P64, 0) == 2 * i;
  }

  lemma {:induction false} SmallScaled(u: nat, k: nat)
    requires u < P64 && Exponent(u) == 0 && k <= 51 && P63 <= 4096 * Up(Fraction(u), k) < P64
    ensures var v := Shl(u, k + 1); P52 <= v < 2 * P52 && Scaled(v, 0 - k) == Fine(Magnitude(u))
  {
    hide Shl;
    var m := Fraction(u);
    assert Up(m, k + 1) == 2 * Up(m, k);
    SignDropped(u, k + 1);
    UpUp(m, k + 1, 51 - k);
  }

  lemma {:induction false} BigScaled(u: nat)
    requires u < P64 && 0 < Exponent(u)
    ensures var v := Fraction(u) + P52; P52 <= v < 2 * P52 && Scaled(v, Exponent(u)) == Fine(Magnitude(u))
  {
    hide Exponent, Fraction, Sign;
    Fields(u);
    UpUp(P52 + Fraction(u), Exponent(u) - 1, 52);
  }

  /** The larger of two normalised numbers does not have the smaller exponent. */
  lemma {:induction false} ExponentOrder(v: nat, e: int, w: nat, f: int)
    requires P52 <= v < 2 * P52 && P52 <= w < 2 * P52 && e >= -51 && f >= -51 && Scaled(v, e) >= Scaled(w, f)
    ensures e >= f
  {
    if e < f {
      UpOrder(v, 2 * P52, e + 51);
      UpDouble(P52, e + 51);
      UpGrows(P52, e + 52, f + 51);
      UpOrder(w, P52, f + 51);
    }
  }

  /** One subtraction of the loop keeps the remainder. */
  lemma {:induction false} SubStep(v: nat, e: int, w: nat, f: int)
    requires v >= w > 0 && e >= f >= -51
    ensures Scaled(w, f) > 0 && Rem(Scaled(v - w, e), Scaled(w, f)) == Rem(Scaled(v, e), Scaled(w, f))
  {
    UpGrows(w, 0, f + 51);
    UpSub(v, w, e + 51);
    UpUp(w, f + 51, e - f);
    RemUp(Scaled(v - w, e), Scaled(w, f), e - f);
  }

  lemma {:induction false} DoubleStep(v: nat, e: int)
    requires e >= -50
    ensures Scaled(2 * v, e - 1) == Scaled(v, e)
  {
    UpDouble(v, e + 50);
  }

  lemma {:induction false} RemSmall(v: nat, w: nat, f: int)
    requires v < w && f >= -51
    ensures Scaled(w, f) > 0 && Rem(Scaled(v, f), Scaled(w, f)) == Scaled(v, f)
  {
    UpGrows(w, 0, f + 51);
    UpOrder(v, w, f + 51);
  }

  lemma {:induction false} ScaledZero(e: int)
    requires e >= -51
    ensures Scaled(0, e) == 0 && Fine(0) == 0
  {
    UpZero(e + 51);
    UpZero(52);
  }

  /** The remainder in the smaller units is the remainder of the magnitudes. */
  lemma {:induction false} FineRem(a: nat, d: nat)
    requires d > 0
    ensures Fine(d) > 0 && Rem(Fine(a), Fine(d)) == Fine(a % d)
  {
    RemScaled(a, d, 52);
    RemIsMod(a, d);
  }

  lemma {:induction false} FineInjective(a: nat, b: nat)
    ensures Fine(a) == Fine(b) <==> a == b
  {
    UpOrder(a, b, 52);
    UpOrder(b, a, 52);
  }

  /** The result is put together: exactly the number that was left, and no bit is shifted out. */
  lemma {:induction false} Packed(v: nat, e: int, s: nat, r: nat)
    requires P52 <= v < 2 * P52 && -51 <= e < EXP_MAX && s <= 1 && Scaled(v, e) == Fine(r)
    ensures e <= 0 ==> Shr(v, -e + 1) < P52 && Magnitude(s * P63 + Shr(v, -e + 1)) == r && -e + 1 < 64
    ensures e <= 0 ==> HasFields(s, 0, Shr(v, -e + 1))
    ensures e > 0 ==> Magnitude(s * P63 + e * P52 + (v - P52)) == r && HasFields(s, e, v - P52)
  {
    hide Shr, Exponent, Fraction, Sign;
    if e > 0 {
      UpUp(v, e - 1, 52);
      UpOrder(Up(v, e - 1), r, 52);
      UpOrder(r, Up(v, e - 1), 52);
      FieldsOf(s, e, v - P52);
    } else {
      UpUp(r, 1 - e, e + 51);
      UpOrder(v, Up(r, 1 - e), e + 51);
      UpOrder(Up(r, 1 - e), v, e + 51);
      ShrUp(r, 1 - e);
      UpGrows(r, 1, 1 - e);
      assert Up(r, 1) == 2 * r;
      FieldsOf(s, 0, r);
    }
  }

  ghost predicate HasFields(s: nat, e: nat, m: nat) {
    var u := s * P63 + e * P52 + m; u < P64 && Sign(u) == s && Exponent(u) == e
  }

  /** `fmod` */
  method Fmod(x: nat, y: nat) returns (r: Result)
    requires x < P64 && y < P64
    ensures r.NotANumber? <==> y % P63 == 0 || IsNaN(y) || !IsFinite(x)
    ensures r.Double? ==> r.bits < P64 && IsFinite(r.bits) && Sign(r.bits) == Sign(x)
    ensures r.Double? && IsFinite(y) ==> Magnitude(y) > 0 && Magnitude(r.bits) == Magnitude(x) % Magnitude(y)
    ensures r.Double? && !IsFinite(y) ==> r.bits == x
  {
    hide Magnitude, Scaled, Fine, Rem, Shl, Shr, Sign, Exponent, Fraction;
    var sx := Sign(x);
    Arguments(x, y);
    if 2 * y % P64 == 0 || IsNaN(y) || Exponent(x) == EXP_MAX {
      return NotANumber;
    }
    if 2 * x % P64 <= 2 * y % P64 {
      return if 2 * x % P64 == 2 * y % P64 then Double(sx * P63) else Double(x);
    }
    var uxi, ex := Normalize(x);
    var uyi, ey := Normalize(y);
    ExponentOrder(uxi, ex, uyi, ey);
    ghost var d, m := Scaled(uyi, ey), Magnitude(x) % Magnitude(y);
    while ex > ey
      invariant ey <= ex < EXP_MAX && 0 < uxi < 2 * uyi && Rem(Scaled(uxi, ex), d) == Fine(m)
      decreases ex - ey
    {
      var i := Sub64(uxi, uyi);
      Difference(uxi, uyi);
      if i / P63 == 0 {
        SubStep(uxi, ex, uyi, ey);
        if i == 0 {
          Vanished(ex, d, m);
          return Double(sx * P63);
        }
        uxi := i;
      }
      DoubleStep(uxi, ex);
      DoubledOnce(uxi);
      uxi := Shl(uxi, 1);
      ex := ex - 1;
    }
    var i := Sub64(uxi, uyi);
    Difference(uxi, uyi);
    if i / P63 == 0 {
      SubStep(uxi, ex, uyi, ey);
      if i == 0 {
        Vanished(ex, d, m);
        return Double(sx * P63);
      }
      uxi := i;
    }
    RemSmall(uxi, uyi, ey);
    while uxi / P52 == 0
      invariant 0 < uxi < 2 * P52 && -51 <= ex < EXP_MAX && Scaled(uxi, ex) == Fine(m)
      decreases ex + 51
    {
      RoomLeft(uxi, ex, m);
      DoubleStep(uxi, ex);
      DoubledOnce(uxi);
      uxi, ex := Shl(uxi, 1), ex - 1;
    }
    Packed(uxi, ex, sx, m);
    if ex > 0 {
      uxi := uxi - P52;
      uxi := uxi + ex * P52;
    } else {
      uxi := Shr(uxi, -ex + 1);
    }
    uxi := uxi + sx * P63;
    r := Double(uxi);
  }

  /** What the tests at the start decide. */
  lemma {:induction false} Arguments(x: nat, y: nat)
    requires x < P64 && y < P64
    ensures 2 * x % P64 == 2 * (x % P63) && 2 * y % P64 == 2 * (y % P63) && Sign(x) <= 1
    ensures HasFields(Sign(x), 0, 0) && Magnitude(Sign(x) * P63) == 0
    ensures y % P63 != 0 ==> Magnitude(y) > 0
    ensures y % P63 != 0 && x % P63 == y % P63 ==> Exponent(x) == Exponent(y) && Magnitude(x) % Magnitude(y) == 0
    ensures y % P63 != 0 && x % P63 < y % P63 ==> Magnitude(x) % Magnitude(y) == Magnitude(x)
    ensures IsFinite(x) && x % P63 > y % P63 ==> IsFinite(y)
    ensures y % P63 != 0 && x % P63 > y % P63 ==>
      Fine(Magnitude(x)) >= Fine(Magnitude(y)) > 0
        && Rem(Fine(Magnitude(x)), Fine(Magnitude(y))) == Fine(Magnitude(x) % Magnitude(y))
  {
    hide Exponent, Fraction, Sign, Magnitude, Fine, Rem;
    Fields(x);
    Fields(y);
    SignOnly(Sign(x));
    if y % P63 != 0 {
      SignOnly(0);
      assert 0 * P63 == 0;
      MagnitudeOrder(0, y);
      if x % P63 == y % P63 {
        SameFields(x, y);
      } else if x % P63 < y % P63 {
        MagnitudeOrder(x, y);
        SmallMod(Magnitude(x), Magnitude(y));
      } else {
        MagnitudeOrder(y, x);
        FineRem(Magnitude(x), Magnitude(y));
        FineOrder(Magnitude(y), Magnitude(x));
      }
    }
  }

  lemma {:induction false} SignOnly(s: nat)
    requires s <= 1
    ensures HasFields(s, 0, 0) && Magnitude(s * P63) == 0
  {
    FieldsOf(s, 0, 0);
  }

  lemma {:induction false} SameFields(x: nat, y: nat)
    requires x < P64 && y < P64 && x % P63 == y % P63 && Magnitude(y) > 0
    ensures Exponent(x) == Exponent(y) && Magnitude(x) == Magnitude(y) && Magnitude(x) % Magnitude(y) == 0
  {
    hide Exponent, Fraction, Sign;
    Fields(x);
    Fields(y);
    DivUnique(Magnitude(x), Magnitude(y), 1, 0);
  }

  lemma {:induction false} SmallMod(a: nat, d: nat)
    requires a < d
    ensures a % d == a
  {
  }

  lemma {:induction false} FineOrder(a: nat, b: nat)
    requires a < b
    ensures Fine(a) < Fine(b)
  {
    UpOrder(a, b, 52);
  }

  /** The 64-bit difference has its top bit set exactly when it would be negative. */
  lemma {:induction false} Difference(v: nat, w: nat)
    requires v < 4 * P52 && w < 2 * P52
    ensures Sub64(v, w) / P63 == 0 <==> v >= w
    ensures v >= w ==> Sub64(v, w) == v - w
  {
  }

  lemma {:induction false} DoubledOnce(v: nat)
    requires v < P63
    ensures Shl(v, 1) == 2 * v
  {
    assert 2 * v % P64 == 2 * v;
    assert Shl(2 * v % P64, 0) == 2 * v;
  }

  lemma {:induction false} Vanished(e: int, d: nat, m: nat)
    requires e >= -51 && d > 0 && Rem(Scaled(0, e), d) == Fine(m)
    ensures m == 0
  {
    ScaledZero(e);
    FineInjective(m, 0);
  }

  /** A number below 2^52 cannot have the smallest exponent. */
  lemma {:induction false} RoomLeft(v: nat, e: int, m: nat)
    requires 0 < v < P52 && e >= -51 && Scaled(v, e) == Fine(m)
    ensures e > -51
  {
    UpOrder(0, v, e + 51);
    UpZero(e + 51);
    Up52(m);
    UpZero(52);
    assert m >= 1 ==> P52 * m >= P52;
  }
}
