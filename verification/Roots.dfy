/** Square root by trial bits. */
module Roots {
  import opened Positional
  import opened Limbs
  import opened BigIntegers
  import Bits
  import Shifts

  /** r is the square root of n rounded down. */
  ghost predicate IsFloorSqrt(r: int, n: int) {
    r >= 0 && r * r <= n < (r + 1) * (r + 1)
  }

  lemma FloorSqrtUnique(r: int, s: int, n: int)
    requires IsFloorSqrt(r, n) && IsFloorSqrt(s, n)
    ensures r == s
  {
    if r < s {
      SquareMono(r + 1, s);
    } else if s < r {
      SquareMono(s + 1, r);
    }
  }

  lemma SquareMono(a: nat, b: nat)
    requires a <= b
    ensures a * a <= b * b
  {
    Grow(a, b, a);
    Grow(a, b, b);
    assert a * b == b * a;
  }

  /** Twice the weight of bit k of limb i. */
  function Weight(i: nat, k: int): nat
    requires k >= -1
  {
    Pow(2, k + 1) * Pow(0x1_0000_0000, i)
  }

  lemma WeightHalves(i: nat, k: nat)
    ensures Weight(i, k) == 2 * Weight(i, k - 1) && Weight(i, k - 1) == Pow(2, k) * Pow(0x1_0000_0000, i)
  {
    PowTwice(k);
    assert (2 * Pow(2, k)) * Pow(0x1_0000_0000, i) == 2 * (Pow(2, k) * Pow(0x1_0000_0000, i));
  }

  /** The state between two trial bits: bits k and below of limb i, and the limbs below it, are
      still clear, and the root lies within the weight of the bits left. */
  ghost predicate RootState(s: seq<Word>, i: nat, k: int, n: nat)
  {
    && i < |s| && -1 <= k <= 31
    && s[i] % Pow(2, k + 1) == 0
    && (forall j :: 0 <= j < i ==> s[j] == 0)
    && Value(s) * Value(s) <= n
    && n < (Value(s) + Weight(i, k)) * (Value(s) + Weight(i, k))
  }

  lemma SetBit(s: seq<Word>, i: nat, k: nat, n: nat)
    requires RootState(s, i, k, n)
    ensures Bits.Xor(s[i], Pow(2, k)) == s[i] + Pow(2, k) < 0x1_0000_0000
    ensures Bits.Xor(s[i] + Pow(2, k), Pow(2, k)) == s[i]
    ensures Value(s[i := s[i] + Pow(2, k)]) == Value(s) + Pow(2, k) * Pow(0x1_0000_0000, i)
  {
    hide Pow, Bits.Xor;
    Bits.XorFlips(s[i], k);
    RoomForBit(s[i], k);
    ValUpdate(0x1_0000_0000, s, i, s[i] + Pow(2, k));
    var a: nat, b, p := s[i], Pow(2, k), Pow(0x1_0000_0000, i);
    assert (a + b) * p == a * p + b * p;
  }

  /** A limb whose low k + 1 bits are clear has room for bit k. */
  lemma RoomForBit(x: Word, k: nat)
    requires k <= 31 && x % Pow(2, k + 1) == 0
    ensures x + Pow(2, k) < 0x1_0000_0000
  {
    hide Pow;
    var p, t := Pow(2, k + 1), Pow(2, 32 - (k + 1));
    Shifts.SplitPowers(k + 1);
    PowTwice(k);
    var q := x / p;
    assert x == p * q by { assert x == p * q + x % p; }
    assert p * q == q * p && p * t == t * p;
    Bits.LessByProduct(q, t, p);
    OneMore(p, q, t);
  }

  lemma PowTwice(k: nat)
    ensures Pow(2, k + 1) == 2 * Pow(2, k) && Pow(2, k) > 0
  {
  }

  /** One trial bit, kept or dropped, halves the interval the root lies in. */
  lemma TrialBit(s: seq<Word>, s': seq<Word>, i: nat, k: nat, n: nat)
    requires RootState(s, i, k, n)
    requires var w := Value(s) + Weight(i, k - 1);
      if w * w > n then s' == s
      else s[i] + Pow(2, k) < 0x1_0000_0000 && s' == s[i := s[i] + Pow(2, k)] && Value(s') == w
    ensures RootState(s', i, k - 1, n)
  {
    hide Pow, Weight, Limbs.Value;
    PowTwice(k);
    ModHalf(s[i], Pow(2, k));
    WeightHalves(i, k);
  }

  lemma ModHalf(x: nat, p: nat)
    requires p > 0 && x % (2 * p) == 0
    ensures x % p == 0 && (x + p) % p == 0
  {
    var q := x / (2 * p);
    assert x == (2 * p) * q;
    assert x == (2 * q) * p && x + p == (2 * q + 1) * p;
    Bits.DivModIs(x, p, 2 * q, 0);
    Bits.DivModIs(x + p, p, 2 * q + 1, 0);
  }

  /** Going down to the next limb. */
  lemma NextLimb(s: seq<Word>, i: nat, n: nat)
    requires i > 0 && RootState(s, i, -1, n)
    ensures RootState(s, i - 1, 31, n)
  {
    Pow32();
    assert Pow(2, 0) == 1;
  }

  /** The first trial bit is at or above the root's top bit. */
  lemma RootStart(n: nat, bits: nat, half: nat, i: nat, k: nat)
    requires n < Pow(2, bits) && bits <= 2 * half && k <= 31 && half <= 32 * i + k + 1
    ensures RootState(ZeroLimbs(i + 1), i, k, n)
  {
    hide Pow;
    var s := ZeroLimbs(i + 1);
    LowZeros(0x1_0000_0000, s, i + 1);
    Bits.DivModIs(0, Pow(2, k + 1), 0, 0);
    PowMono(2, bits, half + half);
    PowAdd(2, half, half);
    PowMono(2, half, 32 * i + (k + 1));
    PowAdd(2, 32 * i, k + 1);
    PowPow(2, 32, i);
    Pow32();
    assert Pow(2, k + 1) * Pow(0x1_0000_0000, i) == Pow(0x1_0000_0000, i) * Pow(2, k + 1);
    SquareMono(Pow(2, half), Pow(2, k + 1) * Pow(0x1_0000_0000, i));
  }

  lemma RootEnd(s: seq<Word>, n: nat)
    requires RootState(s, 0, -1, n)
    ensures IsFloorSqrt(Value(s), n)
  {
    assert Pow(2, 0) == 1 && Pow(0x1_0000_0000, 0) == 1;
  }

  /** Sqrt: the root rounded down, found bit by bit from the top; negative input is refused. */
  method Sqrt(x: BigInteger) returns (ok: bool, r: BigInteger)
    requires x.Canonical()
    ensures fresh(r) && r.Canonical() && (ok <==> x.Value() >= 0)
    ensures ok ==> IsFloorSqrt(r.Value(), x.Value())
    ensures !ok ==> r.Value() == 0
  {
    hide Limbs.Value, Pow, Bits.Xor;
    r := new BigInteger.FromInt64(0);
    ok := true;
    var negative := x.Less(r);
    if negative {
      return false, r;
    }
    var isZero := x.Equals(r);
    if isZero {
      return;
    }
    var bitLength := x.GetBitLength();
    var half := if bitLength % 2 == 0 then bitLength / 2 else bitLength / 2 + 1;
    var num2 := half / 32;
    var b := half % 32;
    var num3: nat;
    ghost var k: int;
    PowTops(b);
    if b == 0 {
      num3 := 0x8000_0000;
      k := 31;
    } else {
      num3 := Pow(2, b);
      num2 := num2 + 1;
      k := b;
    }
    var sqrtArray := ZeroLimbs(num2);
    var num4 := num2 - 1;
    RootStart(x.Value(), bitLength, half, num4, k);
    while num4 >= 0
      invariant -1 <= num4 < |sqrtArray| == num2
      invariant num4 >= 0 ==> RootState(sqrtArray, num4, k, x.Value()) && k >= 0 && num3 == Pow(2, k)
      invariant num4 == -1 ==> RootState(sqrtArray, 0, -1, x.Value())
      invariant x.Canonical() && x.Value() >= 0
    {
      sqrtArray := TryLimb(x, sqrtArray, num4, num3, k);
      num3 := 0x8000_0000;
      k := 31;
      if num4 > 0 { NextLimb(sqrtArray, num4, x.Value()); }
      num4 := num4 - 1;
    }
    RootEnd(sqrtArray, x.Value());
    r := new BigInteger.FromWords(sqrtArray, 1);
  }

  lemma PowTops(b: nat)
    requires b < 32
    ensures Pow(2, 31) == 0x8000_0000 && Pow(2, b) < 0x1_0000_0000
  {
    Pow32();
    PowStrict(2, b, 32);
  }

  /** The inner loop: every bit of one limb, from num3 down. */
  method TryLimb(x: BigInteger, start: seq<Word>, num4: nat, first: nat, ghost bit: nat) returns (sqrtArray: seq<Word>)
    requires x.Canonical() && x.Value() >= 0
    requires RootState(start, num4, bit, x.Value()) && first == Pow(2, bit)
    ensures |sqrtArray| == |start| && RootState(sqrtArray, num4, -1, x.Value())
  {
    hide Limbs.Value, Pow, Bits.Xor;
    sqrtArray := start;
    var num3 := first;
    ghost var k: int := bit;
    ghost var n := x.Value();
    while num3 != 0
      invariant |sqrtArray| == |start| && RootState(sqrtArray, num4, k, n)
      invariant num3 == (if k < 0 then 0 else Pow(2, k))
      invariant x.Canonical() && x.Value() == n
      decreases k
    {
      ghost var before := sqrtArray;
      SetBit(before, num4, k, n);
      sqrtArray := sqrtArray[num4 := Bits.Xor(sqrtArray[num4], num3)];
      var tmp := new BigInteger.FromWords(sqrtArray, 1);
      ValueEmpty();
      PowTwice(k);
      var square := tmp.Times(tmp);
      var above := square.Greater(x);
      if above {
        sqrtArray := sqrtArray[num4 := Bits.Xor(sqrtArray[num4], num3)];
      }
      WeightHalves(num4, k);
      TrialBit(before, sqrtArray, num4, k, n);
      HalveBit(k);
      num3 := num3 / 2;
      k := k - 1;
    }
  }

  lemma HalveBit(k: nat)
    ensures Pow(2, k) / 2 == (if k == 0 then 0 else Pow(2, k - 1)) && Pow(2, k) > 0
  {
    assert Pow(2, 0) == 1;
  }
}
