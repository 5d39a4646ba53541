/** Native unsigned words: the 64-bit saturating operations of the fee calculator and the fee
    scaling multiply, in its portable form over 32-bit halves. */
module Words64 {
  import opened Positional
  import Bits

  type U64 = x: nat | x < 0x1_0000_0000_0000_0000
  type U32 = x: nat | x < 0x1_0000_0000
  type U8 = x: nat | x < 256

  const U64_MAX: U64 := 0xFFFF_FFFF_FFFF_FFFF

  /** Wrap-around of an unsigned 64-bit result. */
  function Wrap(x: int): U64 {
    x % 0x1_0000_0000_0000_0000
  }

  /** Saturation at the largest unsigned 64-bit number. */
  function Sat(x: nat): U64 {
    if x > 0xFFFF_FFFF_FFFF_FFFF then 0xFFFF_FFFF_FFFF_FFFF else x
  }

  function SaturatingAdd(a: U64, b: U64): (r: U64)
    ensures r == Sat((a as nat) + b)
  {
    if a > U64_MAX - b then U64_MAX else (a as nat) + b
  }

  function SaturatingMul(a: U64, b: U64): (r: U64)
    ensures r == Sat((a as nat) * b)
  {
    if a == 0 || b == 0 then 0
    else
      MulFits(a, b);
      if a > U64_MAX / b then U64_MAX else (a as nat) * b
  }

  lemma MulFits(a: U64, b: U64)
    requires b > 0
    ensures a <= U64_MAX / b <==> (a as nat) * b <= U64_MAX
  {
    var m: nat, q: nat, x: nat := 0xFFFF_FFFF_FFFF_FFFF, U64_MAX / b, a;
    assert m == b * q + m % b && m % b < b;
    assert b * q == q * b && (q + 1) * b == q * b + b;
    if x <= q {
      Grow(x, q, b);
    } else {
      Grow(q + 1, x, b);
    }
  }

  lemma SatAddSat(x: nat, y: nat)
    ensures Sat(Sat(x) + y) == Sat(x + y) && Sat(x + Sat(y)) == Sat(x + y)
  {
  }

  lemma SatMulSat(x: nat, n: nat)
    ensures Sat((Sat(x) as nat) * n) == Sat(x * n)
  {
    if x > U64_MAX && n > 0 {
      Grow(0xFFFF_FFFF_FFFF_FFFF, x, n);
      Grow(1, n, 0xFFFF_FFFF_FFFF_FFFF);
      assert n * 0xFFFF_FFFF_FFFF_FFFF == 0xFFFF_FFFF_FFFF_FFFF * n;
    }
  }

  lemma SatMono(x: nat, y: nat)
    requires x <= y
    ensures Sat(x) <= Sat(y)
  {
  }

  function CeilDiv(value: U64, divisor: U64): (r: U64)
    requires divisor > 0
    ensures (r as nat) * divisor >= value && (r > 0 ==> ((r - 1) as nat) * divisor < value)
  {
    CeilIs(value, divisor);
    value / divisor + (if value % divisor != 0 then 1 else 0)
  }

  lemma CeilIs(v: nat, d: nat)
    requires d > 0
    ensures 0 <= v / d <= v && v == (v / d) * d + v % d && (v % d > 0 ==> v / d < v)
    ensures (v / d + 1) * d == (v / d) * d + d
    ensures v / d > 0 ==> (v / d - 1) * d == (v / d) * d - d
  {
    assert v == d * (v / d) + v % d;
    assert d * (v / d) == (v / d) * d;
    if v / d > 0 { Grow(1, d, v / d); }
  }

  // ---- fee scaling --------------------------------------------------------------------------

  /** What the scaling means: floor(value * multiplier / 2^shift), saturated; shifts of 64 and more
      give zero. */
  function MulShift(value: U64, multiplier: U64, shift: U8): U64 {
    if shift >= 64 then 0 else Sat(ShiftDown(Product(value, multiplier), shift))
  }

  function Product(x: nat, y: nat): nat {
    x * y
  }

  function ShiftDown(v: nat, shift: nat): nat {
    Quotients(v, Pow(2, shift));
    v / Pow(2, shift)
  }

  /** A product of two 64-bit words from four 32-bit products: the high and low words. */
  function WideProduct(value: U64, multiplier: U64): (p: (nat, nat))
    ensures p.1 < 0x1_0000_0000_0000_0000
  {
    hide Bits.Or, Product;
    var aLo, aHi: nat := value % 0x1_0000_0000, value / 0x1_0000_0000;
    var bLo, bHi: nat := multiplier % 0x1_0000_0000, multiplier / 0x1_0000_0000;
    var ll, lh, hl, hh := Product(aLo, bLo), Product(aLo, bHi), Product(aHi, bLo), Product(aHi, bHi);
    var mid := ll / 0x1_0000_0000 + lh % 0x1_0000_0000 + hl % 0x1_0000_0000;
    OrLow(ll % 0x1_0000_0000, mid % 0x1_0000_0000);
    var lo := Bits.Or(ll % 0x1_0000_0000, (mid % 0x1_0000_0000) * 0x1_0000_0000);
    var hi := hh + lh / 0x1_0000_0000 + hl / 0x1_0000_0000 + mid / 0x1_0000_0000;
    (hi, lo)
  }

  lemma OrLow(low: nat, high: nat)
    requires low < 0x1_0000_0000 && high < 0x1_0000_0000
    ensures Bits.Or(low, high * 0x1_0000_0000) == low + high * 0x1_0000_0000 < 0x1_0000_0000_0000_0000
  {
    Pow32();
    Bits.ModMultiple(high, 0x1_0000_0000);
    Bits.OrIsSum(low, high * 0x1_0000_0000, 32);
  }

  lemma HalvesProduct(aLo: nat, aHi: nat, bLo: nat, bHi: nat)
    ensures Product(aHi * 0x1_0000_0000 + aLo, bHi * 0x1_0000_0000 + bLo)
         == Product(aLo, bLo) + (Product(aLo, bHi) + Product(aHi, bLo)) * 0x1_0000_0000 + Product(aHi, bHi) * 0x1_0000_0000_0000_0000
  {
    assert (aHi * 0x1_0000_0000 + aLo) * (bHi * 0x1_0000_0000 + bLo)
        == (aHi * 0x1_0000_0000) * (bHi * 0x1_0000_0000) + (aHi * 0x1_0000_0000) * bLo + aLo * (bHi * 0x1_0000_0000) + aLo * bLo;
    assert (aHi * 0x1_0000_0000) * (bHi * 0x1_0000_0000) == (aHi * bHi) * 0x1_0000_0000_0000_0000;
    assert (aHi * 0x1_0000_0000) * bLo == (aHi * bLo) * 0x1_0000_0000;
    assert aLo * (bHi * 0x1_0000_0000) == (aLo * bHi) * 0x1_0000_0000;
  }

  /** The halves hold the exact 128-bit product. */
  lemma WideProductIs(value: U64, multiplier: U64)
    ensures WideProduct(value, multiplier).0 * 0x1_0000_0000_0000_0000 + WideProduct(value, multiplier).1
         == Product(value, multiplier)
  {
    hide Bits.Or, Product;
    var aLo, aHi: nat := value % 0x1_0000_0000, value / 0x1_0000_0000;
    var bLo, bHi: nat := multiplier % 0x1_0000_0000, multiplier / 0x1_0000_0000;
    var ll, lh, hl := Product(aLo, bLo), Product(aLo, bHi), Product(aHi, bLo);
    var mid := ll / 0x1_0000_0000 + lh % 0x1_0000_0000 + hl % 0x1_0000_0000;
    OrLow(ll % 0x1_0000_0000, mid % 0x1_0000_0000);
    HalvesProduct(aLo, aHi, bLo, bHi);
    SplitWord(value);
    SplitWord(multiplier);
    Regroup32(ll, lh, hl, Product(aHi, bHi));
  }

  lemma SplitWord(v: U64)
    ensures (v as nat) == (v / 0x1_0000_0000) * 0x1_0000_0000 + v % 0x1_0000_0000
  {
  }

  lemma Regroup32(ll: nat, lh: nat, hl: nat, hh: nat)
    ensures var mid := ll / 0x1_0000_0000 + lh % 0x1_0000_0000 + hl % 0x1_0000_0000;
      (hh + lh / 0x1_0000_0000 + hl / 0x1_0000_0000 + mid / 0x1_0000_0000) * 0x1_0000_0000_0000_0000
        + (ll % 0x1_0000_0000 + (mid % 0x1_0000_0000) * 0x1_0000_0000)
      == ll + (lh + hl) * 0x1_0000_0000 + hh * 0x1_0000_0000_0000_0000
  {
  }

  /** The portable branch: multiply by halves, then shift the two words right together. */
  function MulShiftPortable(value: U64, multiplier: U64, shift: U8): nat {
    if shift >= 64 then 0
    else
      var (hi, lo) := WideProduct(value, multiplier);
      ShiftWords(hi, lo, shift)
  }

  /** The two-word shift: when nothing is left above, the words combine to the quotient. */
  lemma TwoWordShift(hi: nat, lo: nat, s: nat, t: nat)
    requires s > 0 && t > 0 && s * t == 0x1_0000_0000_0000_0000 && lo < s * t
    ensures hi / s == 0 <==> hi < s
    ensures hi < s ==> (hi * (s * t) + lo) / s == hi * t + lo / s && 0 <= lo / s < t && hi * t + t <= s * t
    ensures hi >= s ==> (hi * (s * t) + lo) / s >= s * t
  {
    Quotients(hi, s);
    Quotients(lo, s);
    assert hi * (s * t) == (hi * t) * s;
    Bits.DivModIs(hi * (s * t) + lo, s, hi * t + lo / s, lo % s) by {
      assert (hi * t + lo / s) * s == (hi * t) * s + (lo / s) * s;
    }
    assert t * s == s * t;
    Bits.LessByProduct(lo / s, t, s);
    if hi < s {
      OneMore(t, hi, s);
    } else {
      Grow(s, hi, t);
    }
  }

  lemma Quotients(x: nat, s: nat)
    requires s > 0
    ensures x == (x / s) * s + x % s && 0 <= x % s < s && 0 <= x / s
    ensures x / s == 0 <==> x < s
  {
    assert x == s * (x / s) + x % s;
    assert s * (x / s) == (x / s) * s;
    if x < s { Bits.DivModIs(x, s, 0, x); }
  }

  /** The portable branch, from the two words of the product. */
  function ShiftWords(hi: nat, lo: nat, shift: nat): nat
    requires shift < 64
  {
    if shift == 0 then (if hi != 0 then U64_MAX else lo)
    else if ShiftDown(hi, shift) != 0 then U64_MAX
    else Bits.Or(Wrap(Product(hi, Pow(2, 64 - shift))), ShiftDown(lo, shift))
  }

  lemma ShiftedWords(hi: nat, lo: nat, shift: nat)
    requires 0 < shift < 64 && lo < 0x1_0000_0000_0000_0000
    ensures ShiftDown(hi, shift) == 0 ==>
      ShiftDown(hi * 0x1_0000_0000_0000_0000 + lo, shift) == Bits.Or(Wrap(Product(hi, Pow(2, 64 - shift))), ShiftDown(lo, shift))
    ensures ShiftDown(hi, shift) == 0 <==> ShiftDown(hi * 0x1_0000_0000_0000_0000 + lo, shift) < 0x1_0000_0000_0000_0000
  {
    hide Bits.Or, Pow, Wrap, Product;
    var s, t := Pow(2, shift), Pow(2, 64 - shift);
    PowAdd(2, shift, 64 - shift);
    Pow32();
    ShiftTwo(hi, lo, s, t, 64 - shift);
  }

  lemma ShiftTwo(hi: nat, lo: nat, s: nat, t: nat, bits: nat)
    requires s > 0 && t > 0 && s * t == 0x1_0000_0000_0000_0000 && lo < 0x1_0000_0000_0000_0000 && t == Pow(2, bits)
    ensures hi / s == 0 ==> (hi * 0x1_0000_0000_0000_0000 + lo) / s == Bits.Or(Wrap(Product(hi, t)), lo / s)
    ensures hi / s == 0 <==> (hi * 0x1_0000_0000_0000_0000 + lo) / s < 0x1_0000_0000_0000_0000
  {
    hide Bits.Or, Pow, Wrap, Product;
    TwoWordShift(hi, lo, s, t);
    if hi < s {
      var low: nat := lo / s;
      CombineWords(hi, low, s, t, bits);
    }
  }

  lemma ShiftWordsIs(hi: nat, lo: nat, shift: nat)
    requires shift < 64 && lo < 0x1_0000_0000_0000_0000
    ensures ShiftWords(hi, lo, shift) == Sat(ShiftDown(hi * 0x1_0000_0000_0000_0000 + lo, shift))
  {
    hide Bits.Or, Pow, Wrap, Product, ShiftDown;
    if shift == 0 {
      Unshifted(hi * 0x1_0000_0000_0000_0000 + lo);
    } else {
      ShiftedWords(hi, lo, shift);
    }
  }

  lemma Unshifted(v: nat)
    ensures ShiftDown(v, 0) == v
  {
    PowNought();
  }

  lemma CombineWords(hi: nat, low: nat, s: nat, t: nat, bits: nat)
    requires t == Pow(2, bits) && low < t && hi * t < s * t == 0x1_0000_0000_0000_0000
    ensures Bits.Or(Wrap(Product(hi, t)), low) == hi * t + low
  {
    hide Bits.Or, Pow;
    Bits.ModMultiple(hi, t);
    Bits.OrIsSum(low, hi * t, bits);
  }

  /** The portable branch computes what the 128-bit branch computes. */
  lemma MulShiftRefines(value: U64, multiplier: U64, shift: U8)
    ensures MulShiftPortable(value, multiplier, shift) == MulShift(value, multiplier, shift)
  {
    hide WideProduct, ShiftWords, Product, ShiftDown, Sat;
    if shift < 64 {
      var (hi, lo) := WideProduct(value, multiplier);
      WideProductIs(value, multiplier);
      ShiftWordsIs(hi, lo, shift);
    }
  }

  lemma PowNought()
    ensures Pow(2, 0) == 1
  {
  }

  lemma {:induction false} MulShiftMono(x: U64, y: U64, multiplier: U64, shift: U8)
    requires x <= y
    ensures MulShift(x, multiplier, shift) <= MulShift(y, multiplier, shift)
  {
    Grow(x, y, multiplier);
    DivMono((x as nat) * multiplier, (y as nat) * multiplier, Pow(2, shift));
  }

  lemma DivMono(x: nat, y: nat, d: nat)
    requires x <= y && d > 0
    ensures 0 <= x / d <= y / d
  {
    Quotients(x, d);
    Quotients(y, d);
    assert (y / d + 1) * d == (y / d) * d + d;
    Bits.LessByProduct(x / d, y / d + 1, d);
  }

  // ---- scaling a total against scaling its parts --------------------------------------------

  function Total(units: seq<U64>): nat {
    if units == [] then 0 else Total(units[..|units| - 1]) + units[|units| - 1]
  }

  /** The parts scaled one by one, summed without a bound. */
  function ScaledParts(units: seq<U64>, multiplier: U64, shift: U8): nat
    requires shift < 64
  {
    if units == [] then 0
    else ScaledParts(units[..|units| - 1], multiplier, shift) + ShiftDown(Product(units[|units| - 1], multiplier), shift)
  }

  lemma SumOfFloors(x: nat, y: nat, d: nat, q: nat, n: nat)
    requires d > 0 && q <= x / d <= q + n
    ensures q + y / d <= (x + y) / d <= q + y / d + n + 1
  {
    Quotients(x, d);
    Quotients(y, d);
    var r := x % d + y % d;
    if r < d {
      Bits.DivModIs(x + y, d, x / d + y / d, r) by { assert (x / d + y / d) * d == (x / d) * d + (y / d) * d; }
    } else {
      Bits.DivModIs(x + y, d, x / d + y / d + 1, r - d) by { assert (x / d + y / d + 1) * d == (x / d) * d + (y / d) * d + d; }
    }
  }

  lemma {:induction false} FloorsOfParts(units: seq<U64>, multiplier: U64, shift: U8)
    requires shift < 64
    ensures ScaledParts(units, multiplier, shift) <= ShiftDown(Product(Total(units), multiplier), shift)
    ensures ShiftDown(Product(Total(units), multiplier), shift) <= ScaledParts(units, multiplier, shift) + (if |units| == 0 then 0 else |units| - 1)
  {
    if units == [] {
      assert 0 * multiplier == 0;
      Quotients(0, Pow(2, shift));
    } else {
      var n := |units| - 1;
      FloorsOfParts(units[..n], multiplier, shift);
      var x, y: nat := Total(units[..n]) * multiplier, (units[n] as nat) * multiplier;
      assert Total(units) * multiplier == x + y;
      if n == 0 {
        assert x == 0;
      } else {
        SumOfFloors(x, y, Pow(2, shift), ScaledParts(units[..n], multiplier, shift), n - 1);
      }
    }
  }

  /** Scaling the total is never below the (saturated) sum of the scaled parts, exceeds it by fewer
      units than there are parts, and equals it when the shift is zero. */
  lemma ScalingTheTotal(units: seq<U64>, multiplier: U64, shift: U8)
    requires Total(units) < 0x1_0000_0000_0000_0000 && shift < 64 && units != []
    ensures Sat(ScaledParts(units, multiplier, shift)) <= MulShift(Total(units), multiplier, shift)
    ensures MulShift(Total(units), multiplier, shift) - Sat(ScaledParts(units, multiplier, shift)) < |units|
    ensures shift == 0 ==> MulShift(Total(units), multiplier, shift) == Sat(ScaledParts(units, multiplier, shift))
  {
    FloorsOfParts(units, multiplier, shift);
    if shift == 0 {
      PowNought();
      UnscaledParts(units, multiplier);
    }
  }

  lemma {:induction false} UnscaledParts(units: seq<U64>, multiplier: U64)
    ensures ScaledParts(units, multiplier, 0) == Total(units) * multiplier
  {
    PowNought();
    if units != [] {
      var n := |units| - 1;
      UnscaledParts(units[..n], multiplier);
      assert Total(units) * multiplier == Total(units[..n]) * multiplier + (units[n] as nat) * multiplier;
    }
  }
}
