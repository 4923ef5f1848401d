/**
 The error correction of user-test/lib/libx/qrcgen.c.  A polynomial is the sequence of its
 coefficients, the lowest first; the code's buffers hold the highest first.
 */
module ReedSolomon {
  import opened GaloisField

  type Poly = seq<Byte>

  ghost function Coef(p: Poly, e: int): Byte {
    if 0 <= e < |p| then p[e] else 0
  }

  /** The coefficient of x^e in the product: the sum of q_i * g_(e-i). */
  ghost function Product(q: Poly, g: Poly, e: int): Byte {
    if q == [] then 0 else Add(Times(q[0], Coef(g, e)), Product(q[1..], g, e - 1))
  }

  /** The product of x - 2^i for i below n */
  ghost function Generator(n: nat): (g: Poly)
    ensures |g| == n + 1
  {
    if n == 0 then [1] else seq(n + 1, (e: int) => Product([Power(n - 1), 1], Generator(n - 1), e))
  }

  ghost function Value(p: Poly, x: Byte): Byte {
    if p == [] then 0 else Add(p[0], Times(x, Value(p[1..], x)))
  }

  /** A buffer of coefficients, the highest first */
  ghost function Reversed(b: seq<Byte>): (p: Poly)
    ensures |p| == |b| && forall e | 0 <= e < |b| :: p[e] == b[|b| - 1 - e]
  {
    seq(|b|, e requires 0 <= e < |b| => b[|b| - 1 - e])
  }

  /** The message that is sent: the data, then the remainder */
  ghost function Message(data: seq<Byte>, rem: seq<Byte>): Poly {
    Reversed(data + rem)
  }

  /** The divisor with its leading coefficient, which the code leaves out */
  ghost function Monic(generator: seq<Byte>): Poly {
    Reversed([1] + generator)
  }

  // ---------------------------------------------------------------- products

  lemma {:induction false} ProductZero(q: Poly, g: Poly, e: int)
    requires e < 0 || e >= |q| + |g|
    ensures Product(q, g, e) == 0
  {
    hide Add, Times;
    AddFacts(0, 0);
    if q != [] {
      TimesFacts(0, q[0], 0, 0);
      ProductZero(q[1..], g, e - 1);
    }
  }

  lemma {:induction false} TimesUnit(v: Byte)
    ensures Times(1, v) == v
  {
    hide Terms, Twice, Add;
    TermsStep(8, 1, v);
    TermsNone(7, Twice(v));
    AddFacts(v, 0);
  }

  /** Multiplying by x - s. */
  lemma {:induction false} ProductLinear(s: Byte, g: Poly, e: int)
    ensures Product([s, 1], g, e) == Add(Times(s, Coef(g, e)), Coef(g, e - 1))
  {
    hide Add, Times, Coef;
    TimesUnit(Coef(g, e - 1));
    assert [s, 1][1..] == [1] && [1][1..] == [];
    assert Product([1], g, e - 1) == Add(Times(1, Coef(g, e - 1)), Product([], g, e - 2));
    AddFacts(Coef(g, e - 1), 0);
  }

  lemma {:induction false} GeneratorCoef(n: nat, e: int)
    ensures Coef(Generator(n + 1), e) == Add(Times(Power(n), Coef(Generator(n), e)), Coef(Generator(n), e - 1))
  {
    hide Add, Times, Power;
    ProductLinear(Power(n), Generator(n), e);
    if e < 0 || e > n + 1 {
      TimesFacts(0, Power(n), 0, 0);
      AddFacts(0, 0);
    }
  }

  lemma {:induction false} GeneratorMonic(n: nat)
    ensures Generator(n)[n] == 1
  {
    hide Add, Times, Power;
    if n > 0 {
      GeneratorMonic(n - 1);
      GeneratorCoef(n - 1, n);
      TimesFacts(0, Power(n - 1), 0, 0);
      AddFacts(1, 0);
    }
  }

  // ---------------------------------------------------------------- values

  ghost function Tail(p: Poly): Poly {
    if p == [] then [] else p[1..]
  }

  lemma {:induction false} ValueStep(p: Poly, x: Byte)
    ensures Value(p, x) == Add(Coef(p, 0), Times(x, Value(Tail(p), x)))
  {
    hide Add, Times;
    TimesFacts(0, x, 0, 0);
    AddFacts(0, 0);
  }

  /** The value of a sum is the sum of the values. */
  lemma {:induction false} ValueAdd(p: Poly, a: Poly, b: Poly, x: Byte)
    requires forall e | e >= 0 :: Coef(p, e) == Add(Coef(a, e), Coef(b, e))
    ensures Value(p, x) == Add(Value(a, x), Value(b, x))
    decreases |p| + |a| + |b|
  {
    hide Add, Times;
    AddFacts(0, 0);
    if p != [] || a != [] || b != [] {
      ValueStep(p, x);
      ValueStep(a, x);
      ValueStep(b, x);
      forall e | e >= 0 ensures Coef(Tail(p), e) == Add(Coef(Tail(a), e), Coef(Tail(b), e)) {
        assert Coef(p, e + 1) == Add(Coef(a, e + 1), Coef(b, e + 1));
        TailCoef(p, e);
        TailCoef(a, e);
        TailCoef(b, e);
      }
      ValueAdd(Tail(p), Tail(a), Tail(b), x);
      TimesFacts(0, x, Value(Tail(a), x), Value(Tail(b), x));
      Interchange(Coef(a, 0), Coef(b, 0), Times(x, Value(Tail(a), x)), Times(x, Value(Tail(b), x)));
    }
  }

  lemma {:induction false} TailCoef(p: Poly, e: nat)
    ensures Coef(Tail(p), e) == Coef(p, e + 1)
  {
  }

  ghost function Scaled(s: Byte, p: Poly): Poly {
    if p == [] then [] else [Times(s, p[0])] + Scaled(s, p[1..])
  }

  lemma {:induction false} ScaledFacts(s: Byte, p: Poly, x: Byte, e: nat)
    ensures Coef(Scaled(s, p), e) == Times(s, Coef(p, e)) && Value(Scaled(s, p), x) == Times(s, Value(p, x))
  {
    hide Add, Times;
    TimesFacts(0, s, 0, 0);
    if p != [] {
      ScaledFacts(s, p[1..], x, if e > 0 then e - 1 else 0);
      TimesFacts(x, s, p[0], Times(x, Value(p[1..], x)));
      TimesFacts(x, s, Value(p[1..], x), 0);
      assert Scaled(s, p)[1..] == Scaled(s, p[1..]);
    }
  }

  lemma {:induction false} ValueZero(p: Poly, x: Byte)
    requires forall e | e >= 0 :: Coef(p, e) == 0
    ensures Value(p, x) == 0
  {
    hide Add, Times;
    if p != [] {
      assert Coef(p, 0) == 0;
      forall e | e >= 0 ensures Coef(p[1..], e) == 0 {
        assert Coef(p, e + 1) == 0;
      }
      ValueZero(p[1..], x);
      TimesFacts(0, x, 0, 0);
      AddFacts(0, 0);
    }
  }

  lemma {:induction false} ValueShift(p: Poly, x: Byte)
    ensures Value([0] + p, x) == Times(x, Value(p, x))
  {
    hide Add, Times;
    assert ([0] + p)[1..] == p;
    AddFacts(Times(x, Value(p, x)), 0);
  }

  /** A multiple of a polynomial vanishes where the polynomial does. */
  lemma {:induction false} MultipleVanishes(p: Poly, q: Poly, g: Poly, x: Byte)
    requires Value(g, x) == 0 && forall e | e >= 0 :: Coef(p, e) == Product(q, g, e)
    ensures Value(p, x) == 0
    decreases |q|
  {
    hide Add, Times;
    if q == [] {
      ValueZero(p, x);
    } else {
      var d: Poly := seq(|q| + |g|, (e: int) => Product(q[1..], g, e));
      forall e | e >= 0 ensures Coef(d, e) == Product(q[1..], g, e) {
        if e >= |d| { ProductZero(q[1..], g, e); }
      }
      MultipleVanishes(d, q[1..], g, x);
      forall e | e >= 0 ensures Coef(p, e) == Add(Coef(Scaled(q[0], g), e), Coef([0] + d, e)) {
        ScaledFacts(q[0], g, x, e);
        if e == 0 { ProductZero(q[1..], g, -1); } else { assert Coef([0] + d, e) == Coef(d, e - 1); }
      }
      ValueAdd(p, Scaled(q[0], g), [0] + d, x);
      ScaledFacts(q[0], g, x, 0);
      ValueShift(d, x);
      TimesFacts(0, q[0], 0, 0);
      TimesFacts(0, x, 0, 0);
      AddFacts(0, 0);
    }
  }

  /** The generator vanishes at its roots. */
  lemma {:induction false} GeneratorRoot(n: nat, k: nat)
    requires k < n
    ensures Value(Generator(n), Power(k)) == 0
  {
    hide Add, Times, Power;
    var g, s, x := Generator(n - 1), Power(n - 1), Power(k);
    forall e | e >= 0 ensures Coef(Generator(n), e) == Add(Coef(Scaled(s, g), e), Coef([0] + g, e)) {
      GeneratorCoef(n - 1, e);
      ScaledFacts(s, g, x, e);
    }
    ValueAdd(Generator(n), Scaled(s, g), [0] + g, x);
    ScaledFacts(s, g, x, 0);
    ValueShift(g, x);
    if k < n - 1 {
      GeneratorRoot(n - 1, k);
      TimesFacts(0, s, 0, 0);
      TimesFacts(0, x, 0, 0);
    }
    AddFacts(Times(x, Value(g, x)), 0);
  }

  /** The syndromes of a message are zero: it vanishes at every root of the generator. */
  lemma {:induction false} Syndromes(data: seq<Byte>, rem: seq<Byte>, q: Poly, n: nat, k: nat)
    requires k < n && forall e | e >= 0 :: Coef(Message(data, rem), e) == Product(q, Generator(n), e)
    ensures Value(Message(data, rem), Power(k)) == 0
  {
    hide Add, Times, Power, Message, Generator, Product, Coef;
    GeneratorRoot(n, k);
    MultipleVanishes(Message(data, rem), q, Generator(n), Power(k));
  }

  // ---------------------------------------------------------------- the code

  /** The buffer holds the coefficients of the polynomial below x^degree. */
  ghost predicate Holds(b: seq<Byte>, p: Poly) {
    forall j | 0 <= j < |b| :: b[j] == Coef(p, |b| - 1 - j)
  }

  /** `reed_solomon_compute_divisor` */
  method ComputeDivisor(degree: nat, result: array<Byte>)
    requires 0 < degree == result.Length
    modifies result
    ensures Monic(result[..]) == Generator(degree)
  {
    hide IsProduct, Add, Times, Power, Generator, Product;
    forall j | 0 <= j < degree { result[j] := 0; }
    result[degree - 1] := 1;
    var root, i := 1, 0;
    GeneratorStart();
    while i < degree
      invariant 0 <= i <= degree && root == Power(i) && Holds(result[..], Generator(i))
    {
      var j := 0;
      while j < degree
        invariant 0 <= j <= degree
        invariant forall k | 0 <= k < j :: result[k] == Coef(Generator(i + 1), degree - 1 - k)
        invariant forall k | j <= k < degree :: result[k] == Coef(Generator(i), degree - 1 - k)
      {
        GeneratorCoef(i, degree - 1 - j);
        var z := Multiply(result[j], root);
        result[j] := z;
        if j + 1 < degree {
          AddIs(result[j], result[j + 1]);
          result[j] := result[j] ^ result[j + 1];
        } else {
          AddFacts(z, 0);
        }
        j := j + 1;
      }
      root := Multiply(root, 2);
      PowerStep(i);
      i := i + 1;
    }
    MonicIs(result[..], degree);
  }

  lemma {:induction false} AddIs(a: Byte, b: Byte)
    ensures a ^ b == Add(a, b)
  {
  }

  lemma {:induction false} GeneratorStart()
    ensures Power(0) == 1 && Generator(0) == [1]
  {
  }

  lemma {:induction false} PowerStep(n: nat)
    ensures Times(2, Power(n)) == Power(n + 1)
  {
    hide Times, Twice;
    TimesTwo(Power(n));
  }

  lemma {:induction false} MonicIs(b: seq<Byte>, degree: nat)
    requires |b| == degree && Holds(b, Generator(degree))
    ensures Monic(b) == Generator(degree)
  {
    hide Generator;
    GeneratorMonic(degree);
    forall e | 0 <= e <= degree ensures Monic(b)[e] == Generator(degree)[e] {
      if e < degree {
        assert ([1] + b)[degree - e] == b[degree - 1 - e] == Coef(Generator(degree), e);
      }
    }
  }

  /** `reed_solomon_compute_remainder`; `q` is the quotient. */
  method ComputeRemainder(data: seq<Byte>, generator: seq<Byte>, result: array<Byte>) returns (ghost q: Poly)
    requires 0 < |generator| == result.Length
    modifies result
    ensures |q| == |data| && forall e | e >= 0 :: Coef(Message(data, result[..]), e) == Product(q, Monic(generator), e)
  {
    hide IsProduct, Add, Times, Message, Product, Monic;
    var degree := |generator|;
    forall j | 0 <= j < degree { result[j] := 0; }
    var i := 0;
    q := [];
    NothingYet(result[..], generator);
    assert data[..0] == [];
    while i < |data|
      invariant 0 <= i <= |data| && |q| == i
      invariant Divides(data[..i], result[..], q, generator)
    {
      ghost var was := result[..];
      var factor := data[i] ^ result[0];
      AddIs(data[i], result[0]);
      var j := 0;
      while j < degree - 1
        invariant 0 <= j <= degree - 1
        invariant forall k | 0 <= k < j :: result[k] == was[k + 1]
        invariant forall k | j <= k < degree :: result[k] == was[k]
      {
        result[j] := result[j + 1];
        j := j + 1;
      }
      result[degree - 1] := 0;
      j := 0;
      while j < degree
        invariant 0 <= j <= degree
        invariant forall k | 0 <= k < j :: result[k] == Add(Coef(was[1..], k), Times(factor, generator[k]))
        invariant forall k | j <= k < degree :: result[k] == Coef(was[1..], k)
      {
        var z := Multiply(generator[j], factor);
        AddIs(result[j], z);
        result[j] := result[j] ^ z;
        j := j + 1;
      }
      RemainderStep(data, i, was, result[..], q, generator, factor);
      q := [factor] + q;
      i := i + 1;
    }
    assert data[..i] == data;
  }

  ghost predicate Divides(data: seq<Byte>, rem: seq<Byte>, q: Poly, generator: seq<Byte>) {
    forall e | e >= 0 :: Coef(Message(data, rem), e) == Product(q, Monic(generator), e)
  }

  lemma {:induction false} NothingYet(rem: seq<Byte>, generator: seq<Byte>)
    requires forall j | 0 <= j < |rem| :: rem[j] == 0
    ensures Divides([], rem, [], generator)
  {
    assert [] + rem == rem;
  }

  /** One more byte of data: the old difference times x, plus the factor times the generator. */
  lemma {:induction false} RemainderStep(data: seq<Byte>, i: nat, was: seq<Byte>, rem: seq<Byte>, q: Poly,
                                         generator: seq<Byte>, f: Byte)
    requires i < |data| && 0 < |generator| == |was| == |rem| && f == Add(data[i], was[0])
      && Divides(data[..i], was, q, generator)
    requires forall k | 0 <= k < |rem| :: rem[k] == Add(Coef(was[1..], k), Times(f, generator[k]))
    ensures Divides(data[..i + 1], rem, [f] + q, generator)
  {
    hide Add, Times, Divides, Product;
    forall e | e >= 0 ensures Coef(Message(data[..i + 1], rem), e) == Product([f] + q, Monic(generator), e) {
      RemainderCoef(data, i, was, rem, q, generator, f, e);
    }
    DividesAll(data[..i + 1], rem, [f] + q, generator);
  }

  lemma {:induction false} DividesAll(data: seq<Byte>, rem: seq<Byte>, q: Poly, generator: seq<Byte>)
    requires forall e | e >= 0 :: Coef(Message(data, rem), e) == Product(q, Monic(generator), e)
    ensures Divides(data, rem, q, generator)
  {
  }

  lemma {:induction false} RemainderCoef(data: seq<Byte>, i: nat, was: seq<Byte>, rem: seq<Byte>, q: Poly,
                                         generator: seq<Byte>, f: Byte, e: nat)
    requires i < |data| && 0 < |generator| == |was| == |rem| && f == Add(data[i], was[0])
      && Divides(data[..i], was, q, generator)
    requires forall k | 0 <= k < |rem| :: rem[k] == Add(Coef(was[1..], k), Times(f, generator[k]))
    ensures Coef(Message(data[..i + 1], rem), e) == Product([f] + q, Monic(generator), e)
  {
    hide Add, Times, Product, Message, Monic, Divides, Coef;
    var g, n := Monic(generator), |generator|;
    ProductCons(f, q, g, e);
    if e == 0 {
      ProductZero(q, g, -1);
      CoefOf(0, was[1..], n - 1);
    } else {
      DividesAt(data[..i], was, q, generator, e - 1);
      MessageCoef(data, i, was, e - 1);
    }
    MessageCoef(data, i + 1, rem, e);
    MonicCoef(generator, e);
    if e < n {
      AddFacts(Coef(was[1..], n - 1 - e), Times(f, generator[n - 1 - e]));
      if e > 0 { CoefOf(e, was[1..], n - 1 - e); }
    } else if e == n {
      TimesOne(f);
      AddFacts(was[0], data[i]);
      AddFacts(data[i], was[0]);
      AddFacts(f, was[0]);
    } else {
      TimesFacts(0, f, 0, 0);
      AddFacts(Product(q, g, e - 1), 0);
    }
    AddFacts(0, Times(f, Coef(g, e)));
  }

  lemma {:induction false} CoefOf(e: nat, s: seq<Byte>, k: nat)
    ensures Coef(s, k) == if k < |s| then s[k] else 0
  {
  }

  lemma {:induction false} ProductCons(f: Byte, q: Poly, g: Poly, e: int)
    ensures Product([f] + q, g, e) == Add(Times(f, Coef(g, e)), Product(q, g, e - 1))
  {
    hide Add, Times, Coef;
    assert ([f] + q)[1..] == q;
  }

  lemma {:induction false} DividesAt(data: seq<Byte>, rem: seq<Byte>, q: Poly, generator: seq<Byte>, e: nat)
    requires Divides(data, rem, q, generator)
    ensures Coef(Message(data, rem), e) == Product(q, Monic(generator), e)
  {
    hide Product, Message, Monic, Coef;
  }

  lemma {:induction false} MessageCoef(data: seq<Byte>, i: nat, rem: seq<Byte>, e: nat)
    requires i <= |data|
    ensures Coef(Message(data[..i], rem), e) ==
      if e < |rem| then rem[|rem| - 1 - e] else if e - |rem| < i then data[i - 1 - (e - |rem|)] else 0
  {
  }

  lemma {:induction false} MonicCoef(generator: seq<Byte>, e: nat)
    ensures Coef(Monic(generator), e) == if e < |generator| then generator[|generator| - 1 - e]
      else if e == |generator| then 1 else 0
  {
  }

  /** The two together, as `add_ecc_and_interleave` uses them for a block. */
  method Encode(data: seq<Byte>, degree: nat) returns (rem: seq<Byte>, ghost q: Poly)
    requires degree > 0
    ensures |rem| == degree && |q| == |data|
    ensures forall e | e >= 0 :: Coef(Message(data, rem), e) == Product(q, Generator(degree), e)
    ensures forall k | 0 <= k < degree :: Value(Message(data, rem), Power(k)) == 0
  {
    hide Add, Times, Power, Message, Generator, Product, Coef, Monic, Value;
    var divisor, result := new Byte[degree], new Byte[degree];
    ComputeDivisor(degree, divisor);
    var g := divisor[..];
    q := ComputeRemainder(data, g, result);
    rem := result[..];
    forall k | 0 <= k < degree ensures Value(Message(data, rem), Power(k)) == 0 {
      Syndromes(data, rem, q, degree, k);
    }
  }
}
