/**
 The field of 256 elements in which user-test/lib/libx/qrcgen.c computes: polynomials over one bit,
 modulo x^8 + x^4 + x^3 + x^2 + 1, as section 7.5 of ISO/IEC 18004:2015 asks.
 */
module GaloisField {

  type Byte = bv8

  function Add(a: Byte, b: Byte): Byte {
    a ^ b
  }

  /** Multiplication by x: what leaves at the top comes back as x^4 + x^3 + x^2 + 1. */
  function Twice(z: Byte): Byte {
    Add(z << 1, if z & 0x80 != 0 then 0x1d else 0)
  }

  function Half(s: Byte): Byte {
    s >> 1
  }

  function If(s: Byte, v: Byte): Byte {
    if s & 1 != 0 then v else 0
  }

  /** The sum of x^i * v over the terms x^i of s, for i below n. */
  ghost function Terms(n: nat, s: Byte, v: Byte): Byte {
    if n == 0 then 0 else Add(If(s, v), Terms(n - 1, Half(s), Twice(v)))
  }

  ghost function Times(s: Byte, v: Byte): Byte {
    Terms(8, s, v)
  }

  /** x to the power n */
  ghost function Power(n: nat): Byte {
    if n == 0 then 1 else Twice(Power(n - 1))
  }

  lemma {:induction false} AddFacts(a: Byte, b: Byte)
    ensures Add(a, b) == Add(b, a) && Add(a, a) == 0 && Add(a, 0) == a && Add(0, a) == a && Add(a, Add(a, b)) == b
  {
  }

  lemma {:induction false} Interchange(a: Byte, b: Byte, c: Byte, d: Byte)
    ensures Add(Add(a, b), Add(c, d)) == Add(Add(a, c), Add(b, d))
  {
    hide Add;
    AddAssoc(a, b, Add(c, d));
    AddAssoc(b, c, d);
    AddAssoc(c, b, d);
    AddAssoc(a, c, Add(b, d));
    AddFacts(b, c);
  }

  lemma {:induction false} AddAssoc(a: Byte, b: Byte, c: Byte)
    ensures Add(Add(a, b), c) == Add(a, Add(b, c))
  {
  }

  lemma {:induction false} TwiceAdd(a: Byte, b: Byte)
    ensures Twice(Add(a, b)) == Add(Twice(a), Twice(b)) && Twice(0) == 0
  {
    assert (a ^ b) << 1 == (a << 1) ^ (b << 1);
    assert (a ^ b) & 0x80 != 0 <==> (a & 0x80 != 0) != (b & 0x80 != 0);
    Interchange(a << 1, b << 1, if a & 0x80 != 0 then 0x1d else 0, if b & 0x80 != 0 then 0x1d else 0);
  }

  lemma {:induction false} IfAdd(s: Byte, a: Byte, b: Byte)
    ensures If(s, Add(a, b)) == Add(If(s, a), If(s, b)) && Twice(If(s, a)) == If(s, Twice(a)) && If(s, 0) == 0
  {
    TwiceAdd(0, 0);
  }

  lemma {:induction false} TermsBase(s: Byte, v: Byte)
    ensures Terms(0, s, v) == 0
  {
  }

  lemma {:induction false} TermsStep(n: nat, s: Byte, v: Byte)
    requires n > 0
    ensures Terms(n, s, v) == Add(If(s, v), Terms(n - 1, Half(s), Twice(v)))
  {
    hide Twice, If, Half, Add;
  }

  lemma {:induction false} TermsZero(n: nat, s: Byte)
    ensures Terms(n, s, 0) == 0
  {
    hide Twice, If, Half, Add;
    if n > 0 {
      TwiceAdd(0, 0);
      IfAdd(s, 0, 0);
      AddFacts(0, 0);
      TermsZero(n - 1, Half(s));
    }
  }

  /** The product is additive in its second factor. */
  lemma {:induction false} TermsAdd(n: nat, s: Byte, a: Byte, b: Byte)
    ensures Terms(n, s, Add(a, b)) == Add(Terms(n, s, a), Terms(n, s, b))
  {
    hide Twice, If, Half, Add;
    AddFacts(0, 0);
    if n > 0 {
      TwiceAdd(a, b);
      TermsAdd(n - 1, Half(s), Twice(a), Twice(b));
      IfAdd(s, a, b);
      Interchange(If(s, a), If(s, b), Terms(n - 1, Half(s), Twice(a)), Terms(n - 1, Half(s), Twice(b)));
    }
  }

  lemma {:induction false} TermsTwice(n: nat, s: Byte, v: Byte)
    ensures Terms(n, s, Twice(v)) == Twice(Terms(n, s, v))
  {
    hide Twice, If, Half, Add;
    TwiceAdd(If(s, v), 0);
    if n > 0 {
      TermsTwice(n - 1, Half(s), Twice(v));
      TwiceAdd(If(s, v), Terms(n - 1, Half(s), Twice(v)));
      IfAdd(s, v, v);
    }
  }

  /** Multiplying by two numbers can be done in either order. */
  lemma {:induction false} TermsSwap(n: nat, r: Byte, m: nat, s: Byte, v: Byte)
    ensures Terms(n, r, Terms(m, s, v)) == Terms(m, s, Terms(n, r, v))
    decreases n
  {
    hide Twice, If, Half, Add, Terms;
    TermsZero(m, s);
    if n == 0 {
      TermsBase(r, v);
      TermsBase(r, Terms(m, s, v));
    } else {
      TermsStep(n, r, v);
      TermsStep(n, r, Terms(m, s, v));
      TermsTwice(m, s, v);
      TermsSwap(n - 1, Half(r), m, s, Twice(v));
      TermsAdd(m, s, If(r, v), Terms(n - 1, Half(r), Twice(v)));
      IfTerms(r, m, s, v);
    }
  }

  lemma {:induction false} IfTerms(r: Byte, m: nat, s: Byte, v: Byte)
    ensures If(r, Terms(m, s, v)) == Terms(m, s, If(r, v))
  {
    hide Terms;
    TermsZero(m, s);
  }

  lemma {:induction false} TimesFacts(r: Byte, s: Byte, a: Byte, b: Byte)
    ensures Times(s, Add(a, b)) == Add(Times(s, a), Times(s, b)) && Times(s, 0) == 0
    ensures Times(r, Times(s, a)) == Times(s, Times(r, a))
  {
    hide Terms, Add;
    TermsAdd(8, s, a, b);
    TermsZero(8, s);
    TermsSwap(8, r, 8, s, a);
  }

  lemma {:induction false} TimesTwo(v: Byte)
    ensures Times(2, v) == Twice(v)
  {
    hide Twice, Terms, Add;
    TermsNone(6, Twice(Twice(v)));
    TermsStep(7, 1, Twice(v));
    TermsStep(8, 2, v);
    AddFacts(Twice(v), 0);
  }

  lemma {:induction false} TermsNone(n: nat, v: Byte)
    ensures Terms(n, 0, v) == 0
  {
    hide Twice;
    if n > 0 {
      TermsNone(n - 1, Twice(v));
    }
  }

  /** One is the neutral factor. */
  lemma {:induction false} TimesOne(s: Byte)
    ensures Times(s, 1) == s
  {
    hide Terms, If, Add;
    assert Twice(1) == 2 && Twice(2) == 4 && Twice(4) == 8 && Twice(8) == 16 && Twice(16) == 32 && Twice(32) == 64
      && Twice(64) == 128 by {
      Doubles();
    }
    OneTerms(s);
  }

  lemma {:induction false} Doubles()
    ensures Twice(1) == 2 && Twice(2) == 4 && Twice(4) == 8 && Twice(8) == 16 && Twice(16) == 32 && Twice(32) == 64
      && Twice(64) == 128
  {
  }

  lemma {:induction false} OneTerms(s: Byte)
    ensures Terms(8, s, 1) == s
  {
    hide Terms, Twice, If, Add;
    Doubles();
    var s1 := Half(s);
    var s2 := Half(s1);
    var s3 := Half(s2);
    var s4 := Half(s3);
    var s5 := Half(s4);
    var s6 := Half(s5);
    var s7 := Half(s6);
    TermsBase(Half(s7), Twice(128));
    TermsStep(8, s, 1);
    TermsStep(7, s1, 2);
    TermsStep(6, s2, 4);
    TermsStep(5, s3, 8);
    TermsStep(4, s4, 16);
    TermsStep(3, s5, 32);
    TermsStep(2, s6, 64);
    TermsStep(1, s7, 128);
    BitsOf(s);
  }

  lemma {:induction false} BitsOf(s: Byte)
    ensures Add(If(s, 1), Add(If(s >> 1, 2), Add(If(s >> 1 >> 1, 4), Add(If(s >> 1 >> 1 >> 1, 8),
      Add(If(s >> 1 >> 1 >> 1 >> 1, 16), Add(If(s >> 1 >> 1 >> 1 >> 1 >> 1, 32),
      Add(If(s >> 1 >> 1 >> 1 >> 1 >> 1 >> 1, 64), Add(If(s >> 1 >> 1 >> 1 >> 1 >> 1 >> 1 >> 1, 128), 0)))))))) == s
  {
  }

  // ---------------------------------------------------------------- polynomials

  type Wide = bv16

  ghost function Sum(a: Wide, b: Wide): Wide {
    a ^ b
  }

  ghost function Shift(v: Wide): Wide {
    v << 1
  }

  ghost function Pick(s: Byte, v: Wide): Wide {
    if s & 1 != 0 then v else 0
  }

  ghost function Widen(v: Byte): Wide {
    v as bv16
  }

  /** The carry-less product of `s`, of which `n` bits count, and `v`: the sum of shifted copies of `v` */
  ghost function Raw(n: nat, s: Byte, v: Wide): Wide {
    if n == 0 then 0 else Sum(Pick(s, v), Raw(n - 1, Half(s), Shift(v)))
  }

  /** x^8 + x^4 + x^3 + x^2 + 1 divides the difference of `z` and the product of the polynomials `x` and `y`. */
  ghost predicate IsProduct(x: Byte, y: Byte, z: Byte) {
    exists q: Byte :: Sum(Raw(8, y, Widen(x)), Widen(z)) == Raw(8, q, 0x11d)
  }

  lemma {:induction false} SumFacts(a: Wide, b: Wide)
    ensures Sum(a, a) == 0 && Sum(a, 0) == a && Sum(0, a) == a && Sum(a, b) == Sum(b, a)
  {
  }

  lemma {:induction false} SumAssoc(a: Wide, b: Wide, c: Wide)
    ensures Sum(Sum(a, b), c) == Sum(a, Sum(b, c))
  {
  }

  lemma {:induction false} SumFour(a: Wide, b: Wide, c: Wide, d: Wide)
    ensures Sum(Sum(a, b), Sum(c, d)) == Sum(Sum(a, c), Sum(b, d))
  {
    hide Sum;
    SumAssoc(a, b, Sum(c, d));
    SumAssoc(b, c, d);
    SumAssoc(c, b, d);
    SumAssoc(a, c, Sum(b, d));
    SumFacts(b, c);
  }

  lemma {:induction false} ShiftSum(v: Wide, w: Wide)
    ensures Shift(Sum(v, w)) == Sum(Shift(v), Shift(w)) && Shift(0) == 0
  {
  }

  lemma {:induction false} PickSum(s: Byte, v: Wide, w: Wide)
    ensures Pick(s, Sum(v, w)) == Sum(Pick(s, v), Pick(s, w)) && Pick(s, 0) == 0
  {
    SumFacts(0, 0);
  }

  lemma {:induction false} PickAdd(s: Byte, t: Byte, v: Wide)
    ensures Pick(Add(s, t), v) == Sum(Pick(s, v), Pick(t, v)) && Half(Add(s, t)) == Add(Half(s), Half(t))
    ensures Pick(0, v) == 0 && Half(0) == 0
  {
    SumFacts(v, v);
    LowBit(s, t);
  }

  lemma {:induction false} LowBit(s: Byte, t: Byte)
    ensures (s ^ t) & 1 != 0 <==> (s & 1 != 0) != (t & 1 != 0)
  {
  }

  lemma {:induction false} RawStep(n: nat, s: Byte, v: Wide)
    ensures Raw(n, s, v) == if n == 0 then 0 else Sum(Pick(s, v), Raw(n - 1, Half(s), Shift(v)))
  {
    hide Sum, Pick, Half, Shift;
  }

  lemma {:induction false} RawSum(n: nat, s: Byte, v: Wide, w: Wide)
    ensures Raw(n, s, Sum(v, w)) == Sum(Raw(n, s, v), Raw(n, s, w))
  {
    hide Raw, Sum, Pick, Half, Shift;
    RawStep(n, s, v);
    RawStep(n, s, w);
    RawStep(n, s, Sum(v, w));
    SumFacts(0, 0);
    if n > 0 {
      ShiftSum(v, w);
      PickSum(s, v, w);
      RawSum(n - 1, Half(s), Shift(v), Shift(w));
      SumFour(Pick(s, v), Pick(s, w), Raw(n - 1, Half(s), Shift(v)), Raw(n - 1, Half(s), Shift(w)));
    }
  }

  lemma {:induction false} RawAdd(n: nat, s: Byte, t: Byte, v: Wide)
    ensures Raw(n, Add(s, t), v) == Sum(Raw(n, s, v), Raw(n, t, v))
  {
    hide Raw, Sum, Pick, Half, Shift, Add;
    RawStep(n, s, v);
    RawStep(n, t, v);
    RawStep(n, Add(s, t), v);
    SumFacts(0, 0);
    if n > 0 {
      PickAdd(s, t, v);
      RawAdd(n - 1, Half(s), Half(t), Shift(v));
      SumFour(Pick(s, v), Pick(t, v), Raw(n - 1, Half(s), Shift(v)), Raw(n - 1, Half(t), Shift(v)));
    }
  }

  lemma {:induction false} RawNone(n: nat, v: Wide)
    ensures Raw(n, 0, v) == 0
  {
    hide Raw, Sum, Pick, Half, Shift;
    RawStep(n, 0, v);
    if n > 0 {
      RawNone(n - 1, Shift(v));
      PickAdd(0, 0, v);
      SumFacts(0, 0);
    }
  }

  lemma {:induction false} RawZero(n: nat, s: Byte)
    ensures Raw(n, s, 0) == 0
  {
    hide Raw, Sum, Pick, Half, Shift;
    RawStep(n, s, 0);
    if n > 0 {
      RawZero(n - 1, Half(s));
      ShiftSum(0, 0);
      PickSum(s, 0, 0);
      SumFacts(0, 0);
    }
  }

  /** Only the bits below `n` are set. */
  ghost predicate Below(s: Byte, n: nat)
    requires n <= 8
  {
    Drop(s, n) == 0
  }

  lemma {:induction false} BelowHalf(s: Byte, n: nat)
    requires n <= 8 && Below(s, n)
    ensures n > 0 ==> Below(Half(s), n - 1)
    ensures n == 0 ==> s == 0
  {
    if n > 0 { assert s >> 1 >> (n - 1) == s >> n; }
  }

  /** Bits that are not there do not count. */
  lemma {:induction false} RawMore(n: nat, m: nat, s: Byte, v: Wide)
    requires n <= m && n <= 8 && Below(s, n)
    ensures Raw(n, s, v) == Raw(m, s, v)
  {
    hide Raw, Sum, Pick, Half, Shift, Below;
    BelowHalf(s, n);
    if n == 0 {
      RawNone(0, v);
      RawNone(m, v);
    } else {
      RawMore(n - 1, m - 1, Half(s), Shift(v));
      RawStep(n, s, v);
      RawStep(m, s, v);
    }
  }

  /** What doubling in the field takes away */
  ghost function Carry(v: Byte): Wide {
    if v & 0x80 != 0 then 0x11d else 0
  }

  lemma {:induction false} TwiceWide(v: Byte)
    ensures Shift(Widen(v)) == Sum(Widen(Twice(v)), Carry(v))
  {
  }

  lemma {:induction false} IfWide(s: Byte, v: Byte, t: Byte)
    ensures Widen(Add(If(s, v), t)) == Sum(Pick(s, Widen(v)), Widen(t)) && Widen(0) == 0
  {
  }

  /** A carry times a polynomial is a multiple of the field's polynomial. */
  lemma {:induction false} CarryMultiple(n: nat, t: Byte, v: Byte, p: Byte) returns (q: Byte)
    requires n <= 8 && Below(t, n)
    ensures Sum(Raw(n, t, Carry(v)), Raw(8, p, 0x11d)) == Raw(8, q, 0x11d)
  {
    hide Raw, Sum, Below, Add;
    if v & 0x80 != 0 {
      q := Add(t, p);
      RawMore(n, 8, t, 0x11d);
      RawAdd(8, t, p, 0x11d);
    } else {
      q := p;
      RawZero(n, t);
      SumFacts(Raw(8, p, 0x11d), 0);
    }
  }

  /** The sum of terms is the product of polynomials up to a multiple of the field's polynomial. */
  lemma {:induction false} TermsProduct(n: nat, s: Byte, v: Byte) returns (q: Byte)
    requires n <= 8 && Below(s, n)
    ensures Sum(Raw(n, s, Widen(v)), Widen(Terms(n, s, v))) == Raw(8, q, 0x11d)
  {
    hide Raw, Terms, Twice, If, Add, Sum, Pick, Half, Shift, Widen, Below, Carry;
    RawStep(n, s, Widen(v));
    BelowHalf(s, n);
    IfWide(s, v, 0);
    if n == 0 {
      q := 0;
      TermsBase(s, v);
      RawNone(8, 0x11d);
      SumFacts(0, 0);
    } else {
      var t := Half(s);
      var r, y := Raw(n - 1, t, Widen(Twice(v))), Terms(n - 1, t, Twice(v));
      var c, k := Raw(n - 1, t, Carry(v)), Pick(s, Widen(v));
      var p := TermsProduct(n - 1, t, Twice(v));
      TermsStep(n, s, v);
      TwiceWide(v);
      RawSum(n - 1, t, Widen(Twice(v)), Carry(v));
      IfWide(s, v, y);
      SumFour(k, Sum(r, c), k, Widen(y));
      SumFacts(k, k);
      SumFacts(Sum(Sum(r, c), Widen(y)), 0);
      SumFacts(r, c);
      SumAssoc(c, r, Widen(y));
      q := CarryMultiple(n - 1, t, v, p);
    }
  }

  /** The product in the field is the product of polynomials modulo the field's polynomial. */
  lemma {:induction false} TimesProduct(x: Byte, y: Byte)
    ensures IsProduct(x, y, Times(y, x))
  {
    hide Raw, Terms, Sum, Widen;
    AllBelow(y);
    var q := TermsProduct(8, y, x);
  }

  /** There is one byte that is the product. */
  lemma {:induction false} ProductUnique(x: Byte, y: Byte, z: Byte, w: Byte)
    requires IsProduct(x, y, z) && IsProduct(x, y, w)
    ensures z == w
  {
    hide Raw, Sum, Widen, Add;
    var r := Raw(8, y, Widen(x));
    var p: Byte :| Sum(r, Widen(z)) == Raw(8, p, 0x11d);
    var q: Byte :| Sum(r, Widen(w)) == Raw(8, q, 0x11d);
    RawAdd(8, p, q, 0x11d);
    SumFour(r, Widen(z), r, Widen(w));
    SumFacts(r, r);
    SumFacts(Sum(Widen(z), Widen(w)), 0);
    NoSmallMultiple(Add(p, q), z, w);
  }

  /** A multiple of the field's polynomial that fits in a byte is zero. */
  lemma {:induction false} NoSmallMultiple(q: Byte, z: Byte, w: Byte)
    requires Raw(8, q, 0x11d) == Sum(Widen(z), Widen(w))
    ensures z == w
  {
    hide Raw;
    RawBits(q);
    HighBits(q, z, w);
  }

  /** The eight shifted copies of the field's polynomial, added where `q` has a term */
  ghost function Copies(q: Byte): Wide {
    Pick(q, 0x11d) ^ Pick(q >> 1, 0x23a) ^ Pick(q >> 2, 0x474) ^ Pick(q >> 3, 0x8e8)
    ^ Pick(q >> 4, 0x11d0) ^ Pick(q >> 5, 0x23a0) ^ Pick(q >> 6, 0x4740) ^ Pick(q >> 7, 0x8e80)
  }

  lemma {:induction false} HighBits(q: Byte, z: Byte, w: Byte)
    requires Copies(q) == Sum(Widen(z), Widen(w))
    ensures z == w
  {
  }

  lemma {:induction false} RawBits(q: Byte)
    ensures Raw(8, q, 0x11d) == Copies(q)
  {
    hide Raw, Pick;
    var q1, q2, q3, q4, q5, q6, q7 := q >> 1, q >> 2, q >> 3, q >> 4, q >> 5, q >> 6, q >> 7;
    assert q1 >> 1 == q2 && q2 >> 1 == q3 && q3 >> 1 == q4 && q4 >> 1 == q5 && q5 >> 1 == q6 && q6 >> 1 == q7;
    RawStep(0, q7 >> 1, 0x1d00);
    RawStep(1, q7, 0x8e80);
    RawStep(2, q6, 0x4740);
    RawStep(3, q5, 0x23a0);
    RawStep(4, q4, 0x11d0);
    RawStep(5, q3, 0x8e8);
    RawStep(6, q2, 0x474);
    RawStep(7, q1, 0x23a);
    RawStep(8, q, 0x11d);
  }

  lemma {:induction false} AllBelow(y: Byte)
    ensures Below(y, 8)
  {
  }

  // ---------------------------------------------------------------- the code

  function Drop(y: Byte, i: nat): Byte
    requires i <= 8
  {
    y >> i
  }

  /** The first statement of the loop, in bytes: of 0x11d only the low part stays. */
  function Doubled(z: Byte): Byte {
    (z << 1) ^ ((z >> 7) * 0x1d)
  }

  /** The second statement, for the bits of `y` from bit `i` on. */
  function Plus(z: Byte, y: Byte, x: Byte): Byte {
    z ^ ((y & 1) * x)
  }

  /** `reed_solomon_multiply`: the product, by Horner's rule from the highest term down. */
  method Multiply(x: Byte, y: Byte) returns (z: Byte)
    ensures z == Times(y, x) && IsProduct(x, y, z)
  {
    hide IsProduct, Twice, Terms, If, Half, Add, Drop, Doubled, Plus;
    z := 0;
    TermsBase(Drop(y, 8), x);
    var i := 7;
    while i >= 0
      invariant -1 <= i <= 7 && z == Terms(7 - i, Drop(y, i + 1), x)
    {
      HornerStep(z, y, x, i);
      z := Doubled(z);
      z := Plus(z, Drop(y, i), x);
      i := i - 1;
    }
    DropNone(y);
    TimesProduct(x, y);
  }

  lemma {:induction false} DropNone(y: Byte)
    ensures Drop(y, 0) == y
  {
  }

  lemma {:induction false} HornerStep(z: Byte, y: Byte, x: Byte, i: nat)
    requires i <= 7 && z == Terms(7 - i, Drop(y, i + 1), x)
    ensures Plus(Doubled(z), Drop(y, i), x) == Terms(8 - i, Drop(y, i), x)
  {
    hide Twice, If, Terms, Add, Half, Drop, Doubled, Plus;
    DropStep(y, i);
    CodeStep(z, Drop(y, i), x);
    TermsStep(8 - i, Drop(y, i), x);
    TermsTwice(7 - i, Drop(y, i + 1), x);
  }

  lemma {:induction false} CodeStep(z: Byte, b: Byte, x: Byte)
    ensures Plus(Doubled(z), b, x) == Add(If(b, x), Twice(z))
  {
    hide Doubled, Twice;
    CodeTwice(z);
    CodeIf(b, x);
  }

  lemma {:induction false} CodeTwice(z: Byte)
    ensures Doubled(z) == Twice(z)
  {
  }

  lemma {:induction false} CodeIf(b: Byte, x: Byte)
    ensures (b & 1) * x == If(b, x)
  {
    assert b & 1 == 0 || b & 1 == 1;
  }

  lemma {:induction false} DropStep(y: Byte, i: nat)
    requires i <= 7
    ensures Half(Drop(y, i)) == Drop(y, i + 1)
  {
    if i == 0 {
    } else if i == 1 {
    } else if i == 2 {
    } else if i == 3 {
    } else if i == 4 {
    } else if i == 5 {
    } else if i == 6 {
    } else {
    }
  }
}
