/** Bitwise operators on naturals and single bits of (infinite two's-complement) integers. */
module Bits {
  import opened Positional

  function And(a: nat, b: nat): nat {
    if a == 0 || b == 0 then 0
    else (if a % 2 == 1 && b % 2 == 1 then 1 else 0) + 2 * And(a / 2, b / 2)
  }

  function Or(a: nat, b: nat): nat {
    if a == 0 then b else if b == 0 then a
    else (if a % 2 == 1 || b % 2 == 1 then 1 else 0) + 2 * Or(a / 2, b / 2)
  }

  function Xor(a: nat, b: nat): nat {
    if a == 0 then b else if b == 0 then a
    else (if a % 2 != b % 2 then 1 else 0) + 2 * Xor(a / 2, b / 2)
  }

  /** Bit i of x read as an infinite two's-complement string (division rounds down). */
  function Bit(x: int, i: nat): bool
    decreases i
  {
    if i == 0 then x % 2 == 1 else Bit(x / 2, i - 1)
  }

  lemma {:induction false} ZeroBits(i: nat)
    ensures !Bit(0, i)
  {
    if i > 0 { ZeroBits(i - 1); }
  }

  lemma {:induction false} AndBit(a: nat, b: nat, i: nat)
    ensures Bit(And(a, b), i) == (Bit(a, i) && Bit(b, i))
  {
    if a == 0 || b == 0 {
      ZeroBits(i);
    } else if i > 0 {
      AndBit(a / 2, b / 2, i - 1);
    }
  }

  lemma {:induction false} OrBit(a: nat, b: nat, i: nat)
    ensures Bit(Or(a, b), i) == (Bit(a, i) || Bit(b, i))
  {
    if a == 0 || b == 0 {
      ZeroBits(i);
    } else if i > 0 {
      OrBit(a / 2, b / 2, i - 1);
    }
  }

  lemma {:induction false} XorBit(a: nat, b: nat, i: nat)
    ensures Bit(Xor(a, b), i) == (Bit(a, i) != Bit(b, i))
  {
    if a == 0 || b == 0 {
      ZeroBits(i);
    } else if i > 0 {
      XorBit(a / 2, b / 2, i - 1);
    }
  }

  /** None of the three operators leaves the width of its operands. */
  lemma {:induction false} Width(a: nat, b: nat, k: nat)
    requires a < Pow(2, k) && b < Pow(2, k)
    ensures And(a, b) < Pow(2, k) && Or(a, b) < Pow(2, k) && Xor(a, b) < Pow(2, k)
  {
    if k > 0 && a > 0 && b > 0 { Width(a / 2, b / 2, k - 1); }
  }

  lemma HalfMultiple(b: nat, p: nat)
    requires p > 0 && b % (2 * p) == 0
    ensures b % 2 == 0 && (b / 2) % p == 0
  {
    var q := b / (2 * p);
    assert b == 2 * p * q;
    assert b == 2 * (p * q);
    ModMultiple(q, p);
    assert p * q == q * p;
  }

  lemma {:induction false} ModMultiple(q: nat, p: nat)
    requires p > 0
    ensures (q * p) % p == 0 && (q * p) / p == q
  {
    DivModIs(q * p, p, q, 0);
  }

  /** Quotient and remainder are the only pair with x = q*d + r and 0 <= r < d. */
  lemma DivModIs(x: int, d: nat, q: int, r: nat)
    requires d > 0 && x == q * d + r && r < d
    ensures x / d == q && x % d == r
  {
    var q', r' := x / d, x % d;
    assert x == q' * d + r' by { assert x == d * q' + r'; }
    assert (q' - q) * d == r - r' by { assert (q' - q) * d == q' * d - q * d; }
    if q' > q {
      Times(q' - q, d);
    } else if q' < q {
      Times(q - q', d);
    }
  }

  lemma Times(n: nat, d: nat)
    requires n >= 1
    ensures n * d >= d
  {
    assert n * d == d + (n - 1) * d;
  }

  lemma LessByProduct(a: nat, b: nat, d: nat)
    requires a * d < b * d
    ensures a < b
  {
    if a >= b {
      Grow(b, a, d);
    }
  }

  /** OR of two numbers that share no bit positions is their sum. */
  lemma {:induction false} OrIsSum(a: nat, b: nat, k: nat)
    requires a < Pow(2, k) && b % Pow(2, k) == 0
    ensures Or(a, b) == a + b && Or(b, a) == a + b
  {
    if k > 0 && a > 0 && b > 0 {
      HalfMultiple(b, Pow(2, k - 1));
      OrIsSum(a / 2, b / 2, k - 1);
    }
  }

  /** XOR with a single bit sets it when it is clear and clears it when it is set. */
  lemma {:induction false} XorFlips(a: nat, k: nat)
    requires a % Pow(2, k + 1) == 0
    ensures Xor(a, Pow(2, k)) == a + Pow(2, k) && Xor(a + Pow(2, k), Pow(2, k)) == a
  {
    hide Xor;
    HalfMultiple(a, Pow(2, k));
    if k == 0 {
      XorOne(a);
    } else {
      XorFlips(a / 2, k - 1);
      XorUnfold(a, Pow(2, k - 1));
    }
  }

  /** An even number and an even bit: the operation moves to the halves. */
  lemma XorUnfold(a: nat, p: nat)
    requires a % 2 == 0 && p > 0
    ensures Xor(a, 2 * p) == 2 * Xor(a / 2, p)
    ensures Xor(a + 2 * p, 2 * p) == 2 * Xor(a / 2 + p, p)
  {
    assert (a + 2 * p) / 2 == a / 2 + p && (2 * p) / 2 == p;
  }

  lemma XorOne(a: nat)
    requires a % 2 == 0
    ensures Xor(a, 1) == a + 1 && Xor(a + 1, 1) == a
  {
  }

  /** Testing the single bit 2^k of a number below 2^(k+1). */
  lemma {:induction false} AndTopBit(x: nat, k: nat)
    requires x < Pow(2, k + 1)
    ensures And(x, Pow(2, k)) == 0 <==> x < Pow(2, k)
  {
    if k == 0 {
      assert Pow(2, 1) == 2 && Pow(2, 0) == 1;
    } else if x > 0 {
      AndTopBit(x / 2, k - 1);
    }
  }
}
