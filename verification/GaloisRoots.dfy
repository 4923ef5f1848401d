/**
 The powers of x in the field of user-test/lib/libx/qrcgen.c: x generates all elements but zero, so
 that the roots of a generator polynomial are different.
 */
module GaloisRoots {
  import opened GaloisField

  lemma {:induction false} TwiceInjective(a: Byte, b: Byte)
    requires Twice(a) == Twice(b)
    ensures a == b
  {
  }

  /** Multiplication by a power of x is repeated doubling. */
  lemma {:induction false} PowerAdd(a: nat, b: nat)
    ensures Times(Power(a), Power(b)) == Power(a + b)
  {
    hide Times, Twice, Power;
    PowerIs(b);
    if b == 0 {
      TimesOne(Power(a));
    } else {
      PowerAdd(a, b - 1);
      TimesDoubled(Power(a), Power(b - 1));
      PowerIs(a + b);
    }
  }

  lemma {:induction false} PowerIs(n: nat)
    ensures Power(n) == if n == 0 then 1 else Twice(Power(n - 1))
  {
    hide Twice;
  }

  lemma {:induction false} TimesDoubled(s: Byte, v: Byte)
    ensures Times(s, Twice(v)) == Twice(Times(s, v))
  {
    hide Terms, Twice;
    TermsTwice(8, s, v);
  }

  /** Powers that are equal stay equal when both lose the same factor. */
  lemma {:induction false} PowerCancel(a: nat, b: nat)
    requires a <= b && Power(a) == Power(b)
    ensures Power(b - a) == 1
  {
    hide Twice, Power;
    PowerIs(a);
    PowerIs(b);
    if a == 0 {
      PowerIs(b - a);
    } else {
      TwiceInjective(Power(a - 1), Power(b - 1));
      PowerCancel(a - 1, b - 1);
    }
  }

  // ---------------------------------------------------------------- the order of x

  /** The eight terms of a product written out */
  ghost function Eight(s: Byte, v: Byte): Byte {
    var v1 := Twice(v);
    var v2 := Twice(v1);
    var v3 := Twice(v2);
    var v4 := Twice(v3);
    var v5 := Twice(v4);
    var v6 := Twice(v5);
    Add(If(s, v), Add(If(s >> 1, v1), Add(If(s >> 2, v2), Add(If(s >> 3, v3),
    Add(If(s >> 4, v4), Add(If(s >> 5, v5), Add(If(s >> 6, v6), Add(If(s >> 7, Twice(v6)), 0))))))))
  }

  lemma {:induction false} TimesEight(s: Byte, v: Byte)
    ensures Times(s, v) == Eight(s, v)
  {
    hide Terms, Twice, If, Add;
    var v1 := Twice(v);
    var v2 := Twice(v1);
    var v3 := Twice(v2);
    var v4 := Twice(v3);
    var v5 := Twice(v4);
    var v6 := Twice(v5);
    var v7 := Twice(v6);
    var s1, s2, s3, s4, s5, s6, s7 := s >> 1, s >> 2, s >> 3, s >> 4, s >> 5, s >> 6, s >> 7;
    assert s1 >> 1 == s2 && s2 >> 1 == s3 && s3 >> 1 == s4 && s4 >> 1 == s5 && s5 >> 1 == s6 && s6 >> 1 == s7;
    TermsBase(s7 >> 1, Twice(v7));
    TermsStep(1, s7, v7);
    TermsStep(2, s6, v6);
    TermsStep(3, s5, v5);
    TermsStep(4, s4, v4);
    TermsStep(5, s3, v3);
    TermsStep(6, s2, v2);
    TermsStep(7, s1, v1);
    TermsStep(8, s, v);
  }

  lemma {:induction false} Products()
    ensures Eight(0x10, 0x10) == 0x1d && Eight(0x1d, 0x1d) == 0x4c && Eight(0x4c, 0x4c) == 0x9d
    ensures Eight(0x9d, 0x9d) == 0x5f && Eight(0x1d, 0x10) == 0xcd && Eight(0xcd, 8) == 0x26
    ensures Eight(0x9d, 0x4c) == 0x46 && Eight(0x46, 8) == 0x0a
    ensures Eight(0x5f, 0x4c) == 0xfd && Eight(0xfd, 0x20) == 0xd6
    ensures Eight(0xd6, 0xd6) == 0xd7 && Eight(0xd7, 0xd6) == 1
  {
  }

  lemma {:induction false} SumIs(m: nat, n: nat, y: Byte, z: Byte, w: Byte)
    requires Power(m) == y && Power(n) == z && Eight(y, z) == w
    ensures Power(m + n) == w
  {
    hide Times, Power, Eight;
    PowerAdd(m, n);
    TimesEight(y, z);
  }

  lemma {:induction false} FirstPowers()
    ensures Power(0) == 1 && Power(3) == 8 && Power(4) == 0x10 && Power(5) == 0x20
  {
    hide Power;
    PowerIs(0);
    PowerIs(1);
    PowerIs(2);
    PowerIs(3);
    PowerIs(4);
    PowerIs(5);
  }

  lemma {:induction false} KeyPowers()
    ensures Power(15) == 0x26 && Power(51) == 0x0a && Power(85) == 0xd6 && Power(255) == 1
  {
    hide Power, Eight;
    Products();
    FirstPowers();
    SumIs(4, 4, 0x10, 0x10, 0x1d);
    SumIs(8, 8, 0x1d, 0x1d, 0x4c);
    SumIs(16, 16, 0x4c, 0x4c, 0x9d);
    SumIs(32, 32, 0x9d, 0x9d, 0x5f);
    SumIs(8, 4, 0x1d, 0x10, 0xcd);
    SumIs(12, 3, 0xcd, 8, 0x26);
    SumIs(32, 16, 0x9d, 0x4c, 0x46);
    SumIs(48, 3, 0x46, 8, 0x0a);
    SumIs(64, 16, 0x5f, 0x4c, 0xfd);
    SumIs(80, 5, 0xfd, 0x20, 0xd6);
    SumIs(85, 85, 0xd6, 0xd6, 0xd7);
    SumIs(170, 85, 0xd7, 0xd6, 1);
  }

  /** If two powers are one, so is the one at the greatest common divisor of their exponents. */
  lemma {:induction false} CommonOrder(a: nat, b: nat) returns (g: nat, i: nat, j: nat)
    requires a > 0 && b > 0 && Power(a) == 1 && Power(b) == 1
    ensures 0 < g <= a && g <= b && Power(g) == 1 && a == g * i && b == g * j
    decreases a + b
  {
    hide Power;
    if a == b {
      g, i, j := a, 1, 1;
    } else if a < b {
      PowerCancel(a, b);
      g, i, j := CommonOrder(a, b - a);
      j := i + j;
    } else {
      PowerCancel(b, a);
      g, i, j := CommonOrder(a - b, b);
      i := i + j;
    }
  }

  lemma {:induction false} Repeated(g: nat, k: nat)
    requires Power(g) == 1
    ensures Power(g * k) == 1
  {
    hide Power, Times;
    PowerIs(0);
    if k > 0 {
      Repeated(g, k - 1);
      PowerAdd(g, g * (k - 1));
      TimesOne(1);
      assert g * k == g + g * (k - 1);
    }
  }

  /** A proper divisor of 255 divides 15, 51 or 85. */
  lemma {:induction false} Divisors(g: nat, j: nat) returns (k: nat)
    requires g * j == 255 && g < 255
    ensures g * k == 15 || g * k == 51 || g * k == 85
  {
    if g < 16 {
      SmallFactor(g, j);
      k := if g == 1 then 15 else if g == 3 then 5 else if g == 5 then 3 else 1;
    } else {
      Smaller(g, j);
      SmallFactor(j, g);
      k := if g == 17 then 3 else 1;
    }
  }

  lemma {:induction false} Smaller(g: nat, j: nat)
    requires g * j == 255 && g >= 16
    ensures j < 16
  {
    if j >= 16 { Grows(g, 16, j); }
  }

  lemma {:induction false} Grows(g: nat, m: nat, j: nat)
    requires 16 <= g && m <= j
    ensures 16 * m <= g * j
  {
    assert 16 * m <= g * m <= g * j;
  }

  lemma {:induction false} SmallFactor(a: nat, b: nat)
    requires a * b == 255 && a < 16
    ensures a == 1 || a == 3 || a == 5 || a == 15
    ensures b == 255 / a
  {
    assert a == 0 || a == 1 || a == 2 || a == 3 || a == 4 || a == 5 || a == 6 || a == 7 || a == 8 || a == 9 || a == 10
      || a == 11 || a == 12 || a == 13 || a == 14 || a == 15;
  }

  /** The first 255 powers of x are different. */
  lemma {:induction false} PowersDiffer(a: nat, b: nat)
    requires a < b < 255
    ensures Power(a) != Power(b)
  {
    hide Power;
    if Power(a) == Power(b) {
      PowerCancel(a, b);
      KeyPowers();
      var g, i, j := CommonOrder(b - a, 255);
      var k := Divisors(g, j);
      Repeated(g, k);
    }
  }
}
