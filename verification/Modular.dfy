/** Modular exponentiation by squaring, and the modular inverse by the extended Euclidean
    algorithm. */
module Modular {
  import opened BigIntegers
  import opened Division
  import Limbs
  import Bits
  import SignedCodec
  import Positional

  /** x and y leave the same remainder modulo m. */
  ghost predicate Congruent(x: int, y: int, m: int)
    requires m > 0
  {
    (x - y) % m == 0
  }

  function IntPow(b: int, e: nat): int {
    if e == 0 then 1 else b * IntPow(b, e - 1)
  }

  // ---- congruence ---------------------------------------------------------------------------

  lemma CongruentBy(x: int, y: int, m: int, k: int)
    requires m > 0 && x == y + k * m
    ensures Congruent(x, y, m)
  {
    Bits.DivModIs(x - y, m, k, 0);
  }

  lemma Witness(x: int, y: int, m: int) returns (k: int)
    requires m > 0 && Congruent(x, y, m)
    ensures x == y + k * m
  {
    k := (x - y) / m;
    assert x - y == m * k;
    assert m * k == k * m;
  }

  lemma CongruentTrans(x: int, y: int, z: int, m: int)
    requires m > 0 && Congruent(x, y, m) && Congruent(y, z, m)
    ensures Congruent(x, z, m)
  {
    var j := Witness(x, y, m);
    var k := Witness(y, z, m);
    assert (j + k) * m == j * m + k * m;
    CongruentBy(x, z, m, j + k);
  }

  lemma CongruentMul(x: int, y: int, z: int, m: int)
    requires m > 0 && Congruent(x, y, m)
    ensures Congruent(x * z, y * z, m) && Congruent(z * x, z * y, m)
  {
    var k := Witness(x, y, m);
    assert (y + k * m) * z == y * z + (k * z) * m;
    assert z * x == x * z && z * y == y * z;
    CongruentBy(x * z, y * z, m, k * z);
  }

  lemma CongruentProduct(x: int, y: int, x': int, y': int, m: int)
    requires m > 0 && Congruent(x, y, m) && Congruent(x', y', m)
    ensures Congruent(x * x', y * y', m)
  {
    CongruentMul(x, y, x', m);
    CongruentMul(x', y', y, m);
    CongruentTrans(x * x', y * x', y * y', m);
  }

  lemma CongruentSub(x: int, y: int, x': int, y': int, m: int)
    requires m > 0 && Congruent(x, y, m) && Congruent(x', y', m)
    ensures Congruent(x - x', y - y', m)
  {
    var j := Witness(x, y, m);
    var k := Witness(x', y', m);
    assert (j - k) * m == j * m - k * m;
    CongruentBy(x - x', y - y', m, j - k);
  }

  lemma Symmetric(x: int, y: int, m: int)
    requires m > 0 && Congruent(x, y, m)
    ensures Congruent(y, x, m)
  {
    var k := Witness(x, y, m);
    assert (-k) * m == -(k * m);
    CongruentBy(y, x, m, -k);
  }

  /** The remainder operator keeps the residue. */
  lemma RemainderCongruent(a: int, m: int)
    requires m > 0
    ensures Congruent(TruncMod(a, m), a, m) && -m < TruncMod(a, m) < m
    ensures (a >= 0 ==> TruncMod(a, m) >= 0) && (a <= 0 ==> TruncMod(a, m) <= 0)
  {
    DivisionLaw(a, m);
    assert (-TruncDiv(a, m)) * m == -(TruncDiv(a, m) * m);
    CongruentBy(TruncMod(a, m), a, m, -TruncDiv(a, m));
  }

  lemma {:induction false} PowCongruent(x: int, y: int, e: nat, m: int)
    requires m > 0 && Congruent(x, y, m)
    ensures Congruent(IntPow(x, e), IntPow(y, e), m)
  {
    if e == 0 {
      CongruentBy(1, 1, m, 0);
    } else {
      PowCongruent(x, y, e - 1, m);
      CongruentProduct(x, y, IntPow(x, e - 1), IntPow(y, e - 1), m);
    }
  }

  /** Squaring the base halves the exponent. */
  lemma {:induction false} PowSquare(b: int, e: nat)
    ensures IntPow(b * b, e) == IntPow(b, 2 * e)
  {
    if e > 0 {
      PowSquare(b, e - 1);
      assert IntPow(b, 2 * e) == b * (b * IntPow(b, 2 * e - 2));
      assert (b * b) * IntPow(b * b, e - 1) == b * (b * IntPow(b * b, e - 1));
    }
  }

  // ---- square and multiply ------------------------------------------------------------------

  /** One round of the loop leaves s * t^e in its residue class. */
  lemma SquareStep(s: int, t: int, s': int, t': int, e: nat, target: int, m: int)
    requires m > 0 && Congruent(s * IntPow(t, e), target, m)
    requires if e % 2 == 1 then Congruent(s', s * t, m) else s' == s
    requires Congruent(t', t * t, m)
    ensures Congruent(s' * IntPow(t', e / 2), target, m)
  {
    var h := e / 2;
    PowCongruent(t', t * t, h, m);
    PowSquare(t, h);
    if e % 2 == 1 {
      CongruentProduct(s', s * t, IntPow(t', h), IntPow(t, 2 * h), m);
      assert IntPow(t, e) == t * IntPow(t, 2 * h);
      assert (s * t) * IntPow(t, 2 * h) == s * (t * IntPow(t, 2 * h));
    } else {
      CongruentMul(IntPow(t', h), IntPow(t, 2 * h), s, m);
    }
    CongruentTrans(s' * IntPow(t', h), s * IntPow(t, e), target, m);
  }

  /** The low bit, as the AND with one. */
  lemma LowBit(r: int, e: int)
    requires forall i: nat :: Bits.Bit(r, i) == SignedCodec.OnBits(SignedCodec.AndOp, Bits.Bit(e, i), Bits.Bit(1, i))
    ensures r == e % 2
  {
    forall i: nat
      ensures Bits.Bit(r, i) == Bits.Bit(e % 2, i)
    {
      if i > 0 {
        Bits.ZeroBits(i - 1);
      }
      assert Bits.Bit(r, i) == (Bits.Bit(e, i) && Bits.Bit(1, i));
    }
    SignedCodec.BitsDetermine(r, e % 2);
  }

  method IsOdd(e: BigInteger) returns (odd: bool)
    requires e.Canonical()
    ensures odd == (e.Value() % 2 == 1)
  {
    var one := new BigInteger.FromInt64(1);
    var low := SignedCodec.Bitwise(SignedCodec.AndOp, e, one);
    LowBit(low.Value(), e.Value());
    odd := low.Equals(one);
  }

  /** (x * y) % mod, the step of the square-and-multiply loop. */
  method MulMod(x: BigInteger, y: BigInteger, mod: BigInteger) returns (r: BigInteger)
    requires x.Canonical() && y.Canonical() && mod.Canonical() && mod.Value() > 0
    ensures fresh(r) && r.Canonical() && r.Value() == TruncMod(x.Value() * y.Value(), mod.Value())
  {
    var product := x.Times(y);
    var ok;
    ok, r := Remainder(product, mod);
  }

  /** One round: multiply when the low bit is set, halve the exponent, square the base. */
  method PowRound(s: BigInteger, t: BigInteger, exp: BigInteger, mod: BigInteger, ghost target: int)
    returns (s': BigInteger, t': BigInteger, exp': BigInteger)
    requires s.Canonical() && t.Canonical() && exp.Canonical() && mod.Canonical()
    requires mod.Value() > 0 && exp.Value() > 0
    requires Congruent(s.Value() * IntPow(t.Value(), exp.Value()), target, mod.Value())
    ensures fresh(t') && fresh(exp') && (s' == s || fresh(s'))
    ensures s'.Canonical() && t'.Canonical() && exp'.Canonical() && exp'.Value() == exp.Value() / 2
    ensures Congruent(s'.Value() * IntPow(t'.Value(), exp'.Value()), target, mod.Value())
    ensures t'.Value() >= 0 && (exp.Value() % 2 == 0 ==> s'.Value() == s.Value())
    ensures s.Value() >= 0 && t.Value() >= 0 ==> s'.Value() >= 0
    ensures exp.Value() % 2 == 1 && ((s.Value() >= 0 && t.Value() <= 0) || (s.Value() <= 0 && t.Value() >= 0)) ==> s'.Value() <= 0
    ensures exp.Value() == 1 ==> -mod.Value() < s'.Value() < mod.Value()
  {
    hide TruncMod, Congruent, IntPow;
    hide Positional.Pow, Limbs.Value;
    ghost var m, s0, t0, e := mod.Value(), s.Value(), t.Value(), exp.Value();
    var odd := IsOdd(exp);
    s' := s;
    if odd {
      s' := MulMod(s, t, mod);
      RemainderCongruent(s0 * t0, m);
      ProductSign(s0, t0);
    }
    exp' := exp.ShiftedRight(1);
    ValueEmpty();
    HalfOf(e);
    t' := MulMod(t, t, mod);
    RemainderCongruent(t0 * t0, m);
    ProductSign(t0, t0);
    SquareStep(s0, t0, s'.Value(), t'.Value(), e, target, m);
  }

  lemma ProductSign(x: int, y: int)
    ensures (x >= 0 && y >= 0) || (x <= 0 && y <= 0) ==> x * y >= 0
    ensures (x >= 0 && y <= 0) || (x <= 0 && y >= 0) ==> x * y <= 0
  {
  }

  /** Square-and-multiply for a non-negative exponent. */
  method PowLoop(base: BigInteger, exponent: BigInteger, mod: BigInteger) returns (s: BigInteger)
    requires base.Canonical() && exponent.Canonical() && mod.Canonical()
    requires exponent.Value() >= 0 && mod.Value() > 0
    ensures fresh(s) && s.Canonical()
    ensures Congruent(s.Value(), IntPow(base.Value(), exponent.Value()), mod.Value())
    ensures base.Value() >= 0 || exponent.Value() % 2 == 0 ==> s.Value() >= 0
    ensures base.Value() <= 0 && exponent.Value() % 2 == 1 ==> s.Value() <= 0
    ensures exponent.Value() > 0 ==> -mod.Value() < s.Value() < mod.Value()
    ensures exponent.Value() == 0 ==> s.Value() == 1
  {
    hide Congruent, Limbs.Value;
    s := new BigInteger.FromInt64(1);
    var t := new BigInteger.Copy(base);
    var exp := new BigInteger.Copy(exponent);
    var zero := new BigInteger.FromInt64(0);
    ghost var m := mod.Value();
    ghost var target := IntPow(base.Value(), exponent.Value());
    CongruentBy(target, target, m, 0);
    var done := exp.Equals(zero);
    while !done
      invariant s.Canonical() && t.Canonical() && exp.Canonical() && zero.Canonical() && mod.Canonical()
      invariant fresh(s) && zero.Value() == 0 && mod.Value() == m && exp.Value() >= 0
      invariant Congruent(s.Value() * IntPow(t.Value(), exp.Value()), target, m)
      invariant base.Value() >= 0 ==> s.Value() >= 0 && t.Value() >= 0
      invariant base.Value() <= 0 ==>
        || (exp.Value() == exponent.Value() && s.Value() == 1 && t.Value() == base.Value())
        || (t.Value() >= 0 && if exponent.Value() % 2 == 1 then s.Value() <= 0 else s.Value() >= 0)
      invariant exp.Value() == 0 && exponent.Value() > 0 ==> -m < s.Value() < m
      invariant exponent.Value() == 0 ==> s.Value() == 1 && exp.Value() == 0
      invariant done <==> exp.Value() == 0
      decreases exp.Value()
    {
      s, t, exp := PowRound(s, t, exp, mod, target);
      done := exp.Equals(zero);
    }
    assert IntPow(t.Value(), 0) == 1;
  }

  lemma HalfOf(e: int)
    ensures e / Positional.Pow(2, 1) == e / 2
  {
    assert Positional.Pow(2, 1) == 2 * Positional.Pow(2, 0);
  }

  // ---- extended Euclid ----------------------------------------------------------------------

  predicate Divides(d: int, x: int)
    requires d > 0
  {
    x % d == 0
  }

  ghost predicate Invertible(a: int, m: int)
    requires m > 0
  {
    exists r: int :: Congruent(a * r, 1, m)
  }

  /** Dividing two numbers keeps their common divisors. */
  lemma CommonDivisor(d: int, x: int, y: int)
    requires d > 0 && y > 0 && Divides(d, y) && Divides(d, x % y)
    ensures Divides(d, x)
  {
    var q, j, k := x / y, y / d, (x % y) / d;
    assert x == y * q + x % y;
    assert y == d * j && x % y == d * k;
    assert (d * j) * q + d * k == (j * q + k) * d;
    Bits.DivModIs(x, d, j * q + k, 0);
  }

  /** A common divisor above one rules out an inverse. */
  lemma NoInverse(a: int, residue: int, m: int, g: int)
    requires m > 0 && g > 1 && Divides(g, m) && Divides(g, residue) && Congruent(a, residue, m)
    ensures !Invertible(a, m)
  {
    forall r: int | Congruent(a * r, 1, m)
      ensures false
    {
      var k := Witness(a * r, 1, m);
      var j := Witness(a, residue, m);
      var x, y := m / g, residue / g;
      assert m == g * x && residue == g * y;
      Combination(g, a, r, k, j, x, y, m, residue);
      ProductNotOne(g, (y + j * x) * r - k * x);
    }
  }

  lemma Combination(g: int, a: int, r: int, k: int, j: int, x: int, y: int, m: int, residue: int)
    requires a == residue + j * m && m == g * x && residue == g * y
    ensures a * r - k * m == g * ((y + j * x) * r - k * x)
  {
    assert a == g * (y + j * x) by { assert j * (g * x) == g * (j * x); assert g * (y + j * x) == g * y + g * (j * x); }
    assert (g * (y + j * x)) * r == g * ((y + j * x) * r);
    assert k * (g * x) == g * (k * x);
  }

  lemma ProductNotOne(g: int, t: int)
    requires g > 1
    ensures g * t != 1
  {
    if t >= 1 {
      Bits.Times(t, g);
    } else {
      Bits.Times(1 - t, g);
      assert (1 - t) * g == g - g * t;
    }
  }

  /** The numbers behind the loop's variables: residues r, the divisors seen so far, and the
      Bezout coefficients of the two remainders before the last two. */
  datatype Euclid = Euclid(num: nat, bi: int, big: int, c0: int, c1: int, q0: int, q1: int, r0: int, r1: int)

  ghost predicate EuclidState(e: Euclid, a: int, residue: int, m: int, u: int, v: int)
    requires m > 0
  {
    && 0 <= residue < m && Congruent(a, residue, m)
    && 0 <= e.big < e.bi
    && (forall d: int :: d > 0 && Divides(d, e.bi) && Divides(d, e.big) ==> Divides(d, m) && Divides(d, residue))
    && (e.num <= 2 ==> e.c0 == 0 && e.c1 == 1)
    && (e.num == 0 ==> e.bi == m && e.big == residue && e.r0 == 0 && e.r1 == 0)
    && (e.num == 1 ==> e.bi == residue && e.big == e.r1 == m % residue && e.r0 == 0 && e.q1 == m / residue)
    && (e.num >= 2 ==>
      && residue >= 2
      && e.bi == e.r0 && e.big == e.r1
      && u == e.q0 * v + e.r0 && v == e.q1 * e.r0 + e.r1
      && Congruent(a * e.c0, u, m) && Congruent(a * e.c1, v, m))
  }

  /** The coefficients' recurrence produces the coefficient of the next remainder. */
  lemma NextCoefficient(a: int, m: int, c0: int, c1: int, q: int, u: int, v: int, r: int)
    requires m > 0 && Congruent(a * c0, u, m) && Congruent(a * c1, v, m) && u == q * v + r
    ensures Congruent(a * TruncMod(c0 - c1 * q, m), r, m)
  {
    RemainderCongruent(c0 - c1 * q, m);
    CongruentMul(TruncMod(c0 - c1 * q, m), c0 - c1 * q, a, m);
    CongruentMul(a * c1, v, q, m);
    CongruentSub(a * c0, u, (a * c1) * q, v * q, m);
    assert a * (c0 - c1 * q) == a * c0 - (a * c1) * q;
    assert u - v * q == r;
    CongruentTrans(a * TruncMod(c0 - c1 * q, m), a * (c0 - c1 * q), r, m);
  }

  /** One round of the loop on the numbers. */
  function NextEuclid(e: Euclid, m: int): Euclid
    requires e.big > 0 && m > 0
  {
    Euclid(e.num + 1, e.big, e.bi % e.big,
           if e.num > 1 then e.c1 else e.c0,
           if e.num > 1 then TruncMod(e.c0 - e.c1 * e.q0, m) else e.c1,
           e.q1, e.bi / e.big, e.r1, e.bi % e.big)
  }

  lemma EuclidDivisors(bi: int, big: int, m: int, residue: int)
    requires 0 < big && m > 0
    requires forall d: int :: d > 0 && Divides(d, bi) && Divides(d, big) ==> Divides(d, m) && Divides(d, residue)
    ensures forall d: int :: d > 0 && Divides(d, big) && Divides(d, bi % big) ==> Divides(d, m) && Divides(d, residue)
    ensures 0 <= bi % big < big && bi == (bi / big) * big + bi % big
  {
    hide Divides;
    forall d: int | d > 0 && Divides(d, big) && Divides(d, bi % big)
      ensures Divides(d, m) && Divides(d, residue)
    {
      CommonDivisor(d, bi, big);
    }
    assert bi == big * (bi / big) + bi % big;
    assert big * (bi / big) == (bi / big) * big;
  }

  lemma EuclidStep(e: Euclid, a: int, residue: int, m: int, u: int, v: int) returns (u': int, v': int)
    requires m > 0 && EuclidState(e, a, residue, m, u, v) && e.big > 0
    ensures EuclidState(NextEuclid(e, m), a, residue, m, u', v')
  {
    hide Congruent, Divides, TruncMod;
    EuclidDivisors(e.bi, e.big, m, residue);
    if e.num == 0 {
      u', v' := 0, 0;
    } else if e.num == 1 {
      u', v' := m, residue;
      FirstCoefficients(a, residue, m);
      assert m == (m / residue) * residue + m % residue by { EuclidDivisorsQuotient(m, residue); }
      ModOne(m);
    } else {
      u', v' := v, e.r0;
      NextCoefficient(a, m, e.c0, e.c1, e.q0, u, v, e.r0);
    }
  }

  lemma EuclidDivisorsQuotient(m: int, r: int)
    requires r > 0
    ensures m == (m / r) * r + m % r
  {
    assert m == r * (m / r) + m % r;
  }

  lemma ModOne(m: int)
    ensures m % 1 == 0
  {
  }

  lemma FirstCoefficients(a: int, residue: int, m: int)
    requires m > 0 && Congruent(a, residue, m)
    ensures Congruent(a * 0, m, m) && Congruent(a * 1, residue, m)
  {
    CongruentBy(0, m, m, -1);
    assert a * 0 == 0 && a * 1 == a;
  }

  /** What the loop leaves: a failure is right except for residue one (and modulus one). */
  lemma EuclidEnd(e: Euclid, a: int, residue: int, m: int, u: int, v: int)
    requires m > 0 && EuclidState(e, a, residue, m, u, v) && e.big == 0
    ensures e.r0 >= 0
    ensures e.r0 == 1 ==> residue >= 2 && Congruent(a * TruncMod(e.c0 - e.c1 * e.q0, m), 1, m)
    ensures e.r0 != 1 ==> m == 1 || residue == 1 || !Invertible(a, m)
  {
    if e.r0 == 1 {
      NextCoefficient(a, m, e.c0, e.c1, e.q0, u, v, e.r0);
    } else if m > 1 && residue != 1 {
      Bits.DivModIs(e.bi, e.bi, 1, 0);
      Bits.DivModIs(0, e.bi, 0, 0);
      assert Divides(e.bi, e.bi) && Divides(e.bi, e.big);
      NoInverse(a, residue, m, e.bi);
    }
  }

  /** (c0 - c1 * q) % modulus: the coefficient update. */
  method Coefficient(c0: BigInteger, c1: BigInteger, q: BigInteger, modulus: BigInteger) returns (r: BigInteger)
    requires c0.Valid() && c1.Valid() && q.Valid() && modulus.Canonical() && modulus.Value() > 0
    ensures fresh(r) && r.Canonical()
    ensures r.Value() == TruncMod(c0.Value() - c1.Value() * q.Value(), modulus.Value())
  {
    var product := c1.Times(q);
    var difference := c0.Minus(product);
    var ok;
    ok, r := Remainder(difference, modulus);
  }

  /** The loop's variables: the two numbers being divided, and the pairs of coefficients, quotients
      and remainders it still needs. */
  datatype Work = Work(num: nat, bi: BigInteger, big: BigInteger, c0: BigInteger, c1: BigInteger,
                       q0: BigInteger, q1: BigInteger, r0: BigInteger, r1: BigInteger)
  {
    ghost predicate Ready()
      reads bi, big, c0, c1, q0, q1, r0, r1
    {
      && bi.Canonical() && big.Canonical() && c0.Canonical() && c1.Canonical()
      && q0.Valid() && q1.Valid() && r0.Canonical() && r1.Canonical()
    }

    ghost function Numbers(): Euclid
      reads bi, big, c0, c1, q0, q1, r0, r1
    {
      Euclid(num, bi.Value(), big.Value(), c0.Value(), c1.Value(), q0.Value(), q1.Value(), r0.Value(), r1.Value())
    }
  }

  /** The body of the loop. */
  method EuclidRound(w: Work, modulus: BigInteger) returns (w': Work)
    requires w.Ready() && modulus.Canonical() && modulus.Value() > 0
    requires 0 < w.big.Value() < w.bi.Value()
    ensures w'.Ready() && w'.Numbers() == NextEuclid(w.Numbers(), modulus.Value())
  {
    hide TruncMod, Limbs.Value;
    var c0, c1 := w.c0, w.c1;
    if w.num > 1 {
      c1 := Coefficient(w.c0, w.c1, w.q0, modulus);
      c0 := w.c1;
    }
    var ok, quot, rem := DivideAndModulus(w.bi, w.big);
    w' := Work(w.num + 1, w.big, rem, c0, c1, w.q1, quot, w.r1, rem);
  }

  /** The loop of ModInverse: Euclid on (modulus, residue). */
  method EuclidLoop(modulus: BigInteger, residue: BigInteger, ghost a: int)
    returns (w: Work, ghost u: int, ghost v: int)
    requires modulus.Canonical() && residue.Canonical() && 0 <= residue.Value() < modulus.Value()
    requires Congruent(a, residue.Value(), modulus.Value())
    ensures w.Ready() && w.big.Value() == 0
    ensures EuclidState(w.Numbers(), a, residue.Value(), modulus.Value(), u, v)
  {
    hide Congruent, TruncMod, Divides, EuclidState, Limbs.Value, NextEuclid;
    var zero := new BigInteger.FromInt64(0);
    var one := new BigInteger.FromInt64(1);
    w := Work(0, modulus, residue, zero, one, zero, zero, zero, zero);
    u, v := 0, 0;
    ghost var m := modulus.Value();
    EuclidStart(a, residue.Value(), m);
    var more := NotZero(w.big);
    while more
      invariant modulus.Canonical() && modulus.Value() == m && w.Ready()
      invariant EuclidState(w.Numbers(), a, residue.Value(), m, u, v) && w.big.Value() >= 0
      invariant more <==> w.big.Value() != 0
      decreases w.big.Value()
    {
      ghost var e := w.Numbers();
      EuclidBounds(e, a, residue.Value(), m, u, v);
      w := EuclidRound(w, modulus);
      u, v := EuclidStep(e, a, residue.Value(), m, u, v);
      NextBig(e, m);
      more := NotZero(w.big);
    }
  }

  lemma NextBig(e: Euclid, m: int)
    requires m > 0 && e.big > 0
    ensures NextEuclid(e, m).big == e.bi % e.big && 0 <= e.bi % e.big < e.big
  {
  }

  lemma EuclidStart(a: int, residue: int, m: int)
    requires 0 <= residue < m && Congruent(a, residue, m)
    ensures EuclidState(Euclid(0, m, residue, 0, 1, 0, 0, 0, 0), a, residue, m, 0, 0)
  {
  }

  lemma EuclidBounds(e: Euclid, a: int, residue: int, m: int, u: int, v: int)
    requires m > 0 && EuclidState(e, a, residue, m, u, v)
    ensures 0 <= e.big < e.bi && (e.big > 0 ==> 0 <= e.bi % e.big < e.big)
  {
  }

  /** The source's zero test on the limbs. */
  method NotZero(x: BigInteger) returns (more: bool)
    requires x.Canonical()
    ensures more <==> x.Value() != 0
  {
    more := |x.data| > 1 || (|x.data| == 1 && x.data[0] != 0);
    CanonicalLimbs(x.data);
  }

  /** ModInverse: refuses when there is no inverse, and also (rightly or not) when the residue is
      one or the modulus is one; otherwise returns the inverse below the modulus. A zero modulus is
      refused by the remainder it starts with. */
  method ModInverse(x: BigInteger, modulus: BigInteger) returns (ok: bool, r: BigInteger)
    requires x.Canonical() && modulus.Canonical() && modulus.Value() >= 0
    ensures fresh(r) && r.Canonical()
    ensures ok <==> modulus.Value() > 1 && x.Value() % modulus.Value() != 1 && Invertible(x.Value(), modulus.Value())
    ensures ok ==> 0 <= r.Value() < modulus.Value() && Congruent(x.Value() * r.Value(), 1, modulus.Value())
    ensures !ok ==> r.Value() == 0
  {
    hide Congruent, TruncMod, Divides, EuclidState, Limbs.Value, Invertible;
    if modulus.sign == 0 {
      r := new BigInteger.FromInt64(0);
      return false, r;
    }
    ghost var a, m := x.Value(), modulus.Value();
    var residue := Residue(x, modulus);
    ResidueCongruent(a, m);
    var w;
    ghost var u, v;
    w, u, v := EuclidLoop(modulus, residue, a);
    ghost var e := w.Numbers();
    EuclidEnd(e, a, a % m, m, u, v);
    var failed := NotOne(w.r0);
    if failed {
      r := new BigInteger.FromInt64(0);
      return false, r;
    }
    ok := true;
    var t := Coefficient(w.c0, w.c1, w.q0, modulus);
    r := Residue(t, modulus);
    InverseResult(a, t.Value(), m);
  }

  /** The source's test that the last remainder is one, on its limbs. */
  method NotOne(x: BigInteger) returns (failed: bool)
    requires x.Canonical()
    ensures x.Value() >= 0 ==> (failed <==> x.Value() != 1)
  {
    failed := |x.data| > 1 || (|x.data| == 1 && x.data[0] != 1);
    CanonicalLimbs(x.data);
  }

  lemma InverseResult(a: int, t: int, m: int)
    requires m > 1 && Congruent(a * t, 1, m)
    ensures Congruent(a * (t % m), 1, m) && Invertible(a, m)
  {
    hide Congruent, Invertible;
    ResidueCongruent(t, m);
    Symmetric(t, t % m, m);
    CongruentMul(t % m, t, a, m);
    CongruentTrans(a * (t % m), a * t, 1, m);
    InvertibleBy(a, t, m);
  }

  lemma InvertibleBy(a: int, r: int, m: int)
    requires m > 0 && Congruent(a * r, 1, m)
    ensures Invertible(a, m)
  {
  }

  lemma ResidueCongruent(a: int, m: int)
    requires m > 0
    ensures Congruent(a, a % m, m) && 0 <= a % m < m
  {
    var q := a / m;
    assert a == m * q + a % m;
    assert m * q == q * m;
    CongruentBy(a, a % m, m, q);
  }

  /** x % modulus moved up into [0, modulus): the normalisation before and after Euclid. */
  method Residue(x: BigInteger, modulus: BigInteger) returns (r: BigInteger)
    requires x.Canonical() && modulus.Canonical() && modulus.Value() > 0
    ensures fresh(r) && r.Canonical() && r.Value() == x.Value() % modulus.Value()
  {
    hide TruncMod, Limbs.Value;
    ValueEmpty();
    var ok;
    ok, r := Remainder(x, modulus);
    ResidueOf(x.Value(), modulus.Value());
    if r.sign < 0 {
      r := r.Plus(modulus);
    }
  }

  lemma ResidueOf(a: int, m: int)
    requires m > 0
    ensures a % m == (if TruncMod(a, m) < 0 then TruncMod(a, m) + m else TruncMod(a, m))
  {
    DivisionLaw(a, m);
    if TruncMod(a, m) < 0 {
      assert (TruncDiv(a, m) - 1) * m == TruncDiv(a, m) * m - m;
      Bits.DivModIs(a, m, TruncDiv(a, m) - 1, TruncMod(a, m) + m);
    } else {
      Bits.DivModIs(a, m, TruncDiv(a, m), TruncMod(a, m));
    }
  }

  /** One is its own inverse for every modulus above one, and ModInverse refuses it. */
  lemma InverseOfOneExists(m: int)
    requires m > 1
    ensures Invertible(1, m) && 1 % m == 1
  {
    CongruentBy(1 * 1, 1, m, 0);
    Bits.DivModIs(1, m, 0, 1);
  }

  // ---- ModPow -------------------------------------------------------------------------------

  /** ModPow.  A modulus below one is refused, and so is a negative exponent whose base ModInverse
      refuses.  The result is in the residue class of the power; it is below the modulus in size
      unless the exponent is zero, which always gives one. */
  method ModPow(base: BigInteger, exp: BigInteger, mod: BigInteger) returns (ok: bool, r: BigInteger)
    requires base.Canonical() && exp.Canonical() && mod.Canonical()
    ensures fresh(r) && r.Canonical() && (!ok ==> r.Value() == 0)
    ensures mod.Value() <= 0 ==> !ok
    ensures mod.Value() > 0 && exp.Value() >= 0 ==>
      ok && Congruent(r.Value(), IntPow(base.Value(), exp.Value()), mod.Value())
    ensures mod.Value() > 0 && exp.Value() < 0 ==>
      (ok <==> mod.Value() > 1 && base.Value() % mod.Value() != 1 && Invertible(base.Value(), mod.Value()))
    ensures mod.Value() > 0 && exp.Value() < 0 && ok ==>
      Congruent(IntPow(base.Value(), -exp.Value()) * r.Value(), 1, mod.Value())
    ensures ok ==> (-mod.Value() < r.Value() < mod.Value() <==> exp.Value() != 0 || mod.Value() > 1)
    ensures ok && exp.Value() == 0 ==> r.Value() == 1
    ensures ok && (base.Value() >= 0 || exp.Value() < 0 || exp.Value() % 2 == 0) ==> r.Value() >= 0
    ensures ok && base.Value() <= 0 && exp.Value() > 0 && exp.Value() % 2 == 1 ==> r.Value() <= 0
  {
    hide Congruent, TruncMod, Limbs.Value, Invertible;
    r := new BigInteger.FromInt64(0);
    var zeroModulus := mod.Equals(r);
    if mod.sign == -1 || zeroModulus {
      return false, r;
    }
    ModulusPositive(mod);
    if exp.sign < 0 {
      var inverse;
      ok, inverse := ModInverse(base, mod);
      if !ok {
        return;
      }
      var positive := exp.Negate();
      r := PowLoopOrOnce(inverse, positive, mod);
      InversePower(base.Value(), inverse.Value(), positive.Value(), r.Value(), mod.Value());
      return;
    }
    r := PowLoopOrOnce(base, exp, mod);
    ok := true;
  }

  lemma ModulusPositive(mod: BigInteger)
    requires mod.Canonical()
    ensures mod.sign == (if mod.Value() < 0 then -1 else if mod.Value() == 0 then 0 else 1)
  {
  }

  /** The exponent-one shortcut in front of the loop. */
  method PowLoopOrOnce(base: BigInteger, exp: BigInteger, mod: BigInteger) returns (r: BigInteger)
    requires base.Canonical() && exp.Canonical() && mod.Canonical()
    requires exp.Value() >= 0 && mod.Value() > 0
    ensures fresh(r) && r.Canonical()
    ensures Congruent(r.Value(), IntPow(base.Value(), exp.Value()), mod.Value())
    ensures base.Value() >= 0 || exp.Value() % 2 == 0 ==> r.Value() >= 0
    ensures base.Value() <= 0 && exp.Value() % 2 == 1 ==> r.Value() <= 0
    ensures exp.Value() > 0 ==> -mod.Value() < r.Value() < mod.Value()
    ensures exp.Value() == 0 ==> r.Value() == 1
  {
    hide Congruent, TruncMod, Limbs.Value;
    var one := new BigInteger.FromInt64(1);
    var once := exp.Equals(one);
    if once {
      var ok;
      ok, r := Remainder(base, mod);
      RemainderCongruent(base.Value(), mod.Value());
      assert IntPow(base.Value(), 1) == base.Value() * IntPow(base.Value(), 0);
      return;
    }
    r := PowLoop(base, exp, mod);
  }

  lemma {:induction false} PowOfProduct(x: int, y: int, e: nat)
    ensures IntPow(x, e) * IntPow(y, e) == IntPow(x * y, e)
  {
    if e > 0 {
      PowOfProduct(x, y, e - 1);
      var p, q := IntPow(x, e - 1), IntPow(y, e - 1);
      assert (x * p) * (y * q) == (x * y) * (p * q);
    }
  }

  lemma {:induction false} PowOfOne(e: nat)
    ensures IntPow(1, e) == 1
  {
    if e > 0 { PowOfOne(e - 1); }
  }

  /** A power of the inverse is the inverse of the power. */
  lemma InversePower(a: int, inverse: int, e: nat, r: int, m: int)
    requires m > 0 && Congruent(a * inverse, 1, m) && Congruent(r, IntPow(inverse, e), m)
    ensures Congruent(IntPow(a, e) * r, 1, m)
  {
    hide Congruent, IntPow;
    PowOfProduct(a, inverse, e);
    PowCongruent(a * inverse, 1, e, m);
    PowOfOne(e);
    CongruentMul(r, IntPow(inverse, e), IntPow(a, e), m);
    CongruentTrans(IntPow(a, e) * r, IntPow(a, e) * IntPow(inverse, e), 1, m);
  }
}
