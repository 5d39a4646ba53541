/** Division of magnitudes: the single-limb loop, and Knuth's Algorithm D (The Art of Computer
    Programming, volume 2, section 4.3.1) for divisors of two or more limbs. */
module LongDivision {
  import opened Positional
  import opened Limbs
  import opened BigIntegers
  import Bits
  import Shifts

  // ---- one-limb divisors --------------------------------------------------------------------

  /** The number a quotient writes while its digits still come most significant first. */
  function BigEndian(s: seq<Word>): nat {
    if s == [] then 0 else BigEndian(s[..|s| - 1]) * 0x1_0000_0000 + s[|s| - 1]
  }

  lemma {:induction false} ReversedValue(s: seq<Word>, t: seq<Word>)
    requires |s| == |t| && forall k :: 0 <= k < |s| ==> s[k] == t[|t| - 1 - k]
    ensures Value(s) == BigEndian(t)
  {
    if s != [] {
      ReversedValue(s[1..], t[..|t| - 1]);
      ValCons(0x1_0000_0000, s[0], s[1..]);
      assert s == [s[0]] + s[1..];
    }
  }

  lemma BigEndianSnoc(s: seq<Word>, n: nat, w: Word)
    requires n < |s|
    ensures BigEndian(s[n := w][..n + 1]) == BigEndian(s[..n]) * 0x1_0000_0000 + w
  {
    assert s[n := w][..n + 1][..n] == s[..n];
  }

  lemma ValTail(s: seq<Word>, i: nat)
    requires i < |s|
    ensures Value(s[i..]) == s[i] + (0x1_0000_0000 as int) * Value(s[i + 1..])
  {
    ValCons(0x1_0000_0000, s[i], s[i + 1..]);
    assert s[i..] == [s[i]] + s[i + 1..];
  }

  lemma ShortStep(q: nat, d: nat, r: nat, tail: nat, digit: nat, x: nat, r': nat)
    requires tail == q * d + r && x * d + r' == Pair(r, digit)
    ensures digit + 0x1_0000_0000 * tail == (q * 0x1_0000_0000 + x) * d + r'
  {
    assert (q * 0x1_0000_0000 + x) * d == 0x1_0000_0000 * (q * d) + x * d;
  }

  /** Two limbs read as one 64-bit word. */
  function Pair(hi: nat, lo: nat): nat {
    hi * 0x1_0000_0000 + lo
  }

  lemma DigitFits(r: nat, d: nat, digit: Word)
    requires r < d
    ensures Pair(r, digit) / d < 0x1_0000_0000 && Pair(r, digit) == (Pair(r, digit) / d) * d + Pair(r, digit) % d
  {
    var v := Pair(r, digit);
    assert v == d * (v / d) + v % d;
    assert d * (v / d) == (v / d) * d;
    Bits.LessByProduct(v / d, 0x1_0000_0000, d);
  }

  /** What the loop keeps: digits so far and running remainder divide the limbs read so far. */
  ghost predicate ShortState(n: seq<Word>, d: Word, tmpQuot: seq<Word>, quotIter: nat, rem: seq<Word>, remIter: int)
  {
    && 0 < |n| == |rem| && -1 <= remIter < |n| - 1
    && quotIter <= |tmpQuot|
    && Value(n[remIter + 1..]) == BigEndian(tmpQuot[..quotIter]) * d + rem[remIter + 1]
    && rem[remIter + 1] < d
    && (forall k :: 0 <= k <= remIter ==> rem[k] == n[k])
    && (forall k :: remIter + 1 < k < |n| ==> rem[k] == 0)
  }

  lemma ShortAdvance(n: seq<Word>, d: Word, tmpQuot: seq<Word>, quotIter: nat, rem: seq<Word>, remIter: int,
                     tmpQuot': seq<Word>, rem': seq<Word>)
    requires ShortState(n, d, tmpQuot, quotIter, rem, remIter) && remIter >= 0 && quotIter < |tmpQuot|
    requires d > 0
    ensures Pair(rem[remIter + 1], rem[remIter]) / d < 0x1_0000_0000
    ensures tmpQuot' == tmpQuot[quotIter := WordOf(Pair(rem[remIter + 1], rem[remIter]) / d)]
         && rem' == rem[remIter + 1 := 0][remIter := Pair(rem[remIter + 1], rem[remIter]) % d]
         ==> ShortState(n, d, tmpQuot', quotIter + 1, rem', remIter - 1)
  {
    hide Limbs.Value, Pair;
    var r, x := rem[remIter + 1], rem[remIter];
    DigitFits(r, d, x);
    ValTail(n, remIter);
    ShortStep(BigEndian(tmpQuot[..quotIter]), d, r, Value(n[remIter + 1..]), x, Pair(r, x) / d, Pair(r, x) % d);
    BigEndianSnoc(tmpQuot, quotIter, Pair(r, x) / d);
  }

  method SingleDigitLoop(n: seq<Word>, d: Word) returns (quotArray: seq<Word>, remArray: seq<Word>)
    requires |n| > 0 && d > 0
    ensures Value(n) == Value(quotArray) * d + Value(remArray) && Value(remArray) < d
    ensures remArray != [] && (quotArray == [] <==> |n| == 1 && n[0] < d)
  {
    hide Limbs.Value, Pair, BigEndian;
    var tmpQuotArray: seq<Word> := ZeroLimbs(|n|);
    remArray := n;
    var quotIter := 0;
    var remIter := |remArray| - 1;
    var tmpRem := remArray[remIter];
    ShortStart(n, d);
    if tmpRem >= d {
      tmpQuotArray := tmpQuotArray[quotIter := tmpRem / d];
      quotIter := quotIter + 1;
      remArray := remArray[remIter := tmpRem % d];
    }
    remIter := remIter - 1;
    while remIter >= 0
      invariant ShortState(n, d, tmpQuotArray, quotIter, remArray, remIter)
      invariant |tmpQuotArray| == |n| && quotIter + remIter + 1 <= |n|
      invariant quotIter == 0 <==> remIter == |n| - 2 && n[|n| - 1] < d
      decreases remIter
    {
      ShortAdvance(n, d, tmpQuotArray, quotIter, remArray, remIter,
                   tmpQuotArray[quotIter := WordOf(Pair(remArray[remIter + 1], remArray[remIter]) / d)],
                   remArray[remIter + 1 := 0][remIter := Pair(remArray[remIter + 1], remArray[remIter]) % d]);
      var window := Pair(remArray[remIter + 1], remArray[remIter]);
      tmpQuotArray := tmpQuotArray[quotIter := WordOf(window / d)];
      quotIter := quotIter + 1;
      remArray := remArray[remIter + 1 := 0];
      remArray := remArray[remIter := window % d];
      remIter := remIter - 1;
    }
    quotArray := Reversed(tmpQuotArray, quotIter);
    assert n[0..] == n;
    LowestOnly(remArray);
  }

  /** The cast of a 64-bit quotient to one limb. */
  function WordOf(v: int): Word {
    v % 0x1_0000_0000
  }

  /** The state after the top limb alone has been divided. */
  lemma ShortStart(n: seq<Word>, d: Word)
    requires |n| > 0 && d > 0
    ensures n[|n| - 1] < d ==> ShortState(n, d, ZeroLimbs(|n|), 0, n, |n| - 2)
    ensures n[|n| - 1] >= d ==>
      ShortState(n, d, ZeroLimbs(|n|)[0 := n[|n| - 1] / d], 1, n[|n| - 1 := n[|n| - 1] % d], |n| - 2)
  {
    hide Limbs.Value;
    TopAlone(n);
    var top: nat := n[|n| - 1];
    DigitFits(0, d, top);
    BigEndianSnoc(ZeroLimbs(|n|), 0, top / d);
  }

  /** Turns the quotient digits around. */
  method Reversed(tmpQuotArray: seq<Word>, quotIter: nat) returns (quotArray: seq<Word>)
    requires quotIter <= |tmpQuotArray|
    ensures |quotArray| == quotIter && Value(quotArray) == BigEndian(tmpQuotArray[..quotIter])
  {
    quotArray := ZeroLimbs(quotIter);
    var i, j := |quotArray| - 1, 0;
    while i >= 0
      invariant |quotArray| == quotIter && -1 <= i && i + j == quotIter - 1
      invariant forall k :: 0 <= k < j ==> quotArray[k] == tmpQuotArray[quotIter - 1 - k]
      decreases i
    {
      quotArray := quotArray[j := tmpQuotArray[i]];
      i, j := i - 1, j + 1;
    }
    ReversedValue(quotArray, tmpQuotArray[..quotIter]);
  }

  lemma TopAlone(n: seq<Word>)
    requires |n| > 0
    ensures Value(n[|n| - 1..]) == n[|n| - 1]
  {
    ValueOne(n[|n| - 1]);
    assert n[|n| - 1..] == [n[|n| - 1]];
  }

  lemma LowestOnly(r: seq<Word>)
    requires |r| > 0 && forall k :: 0 < k < |r| ==> r[k] == 0
    ensures Value(r) == r[0]
  {
    KeepLow(r, 1);
    ValueOne(r[0]);
    assert r[..1] == [r[0]];
  }

  /** Quotient and remainder by a one-limb divisor.  A one-limb dividend below the divisor leaves
      the quotient without any limb. */
  method SingleDigitDivMod(numerator: BigInteger, denominator: BigInteger)
    returns (quotient: BigInteger, remainder: BigInteger)
    requires numerator.data != [] && |denominator.data| == 1 && denominator.data[0] > 0
    ensures fresh(quotient) && fresh(remainder) && quotient != remainder
    ensures quotient.Valid() && remainder.Canonical()
    ensures quotient.Value() == Value(numerator.data) / denominator.data[0]
    ensures remainder.Value() == Value(numerator.data) % denominator.data[0]
    ensures quotient.data == [] <==> |numerator.data| == 1 && numerator.data[0] < denominator.data[0]
    ensures quotient.data != [] ==> quotient.Canonical()
  {
    var quotArray, remArray := SingleDigitLoop(numerator.data, denominator.data[0]);
    Bits.DivModIs(Value(numerator.data), denominator.data[0], Value(quotArray), Value(remArray));
    quotient := new BigInteger.FromInt64(0);
    remainder := new BigInteger.FromInt64(0);
    quotient.data := quotArray;
    quotient.sign := 1;
    remainder.data := remArray;
    remainder.sign := 1;
    quotient.Trim();
    remainder.Trim();
  }

  // ---- Algorithm D --------------------------------------------------------------------------

  /** The three leading limbs of a remainder window, as one number. */
  function TopThree(w: seq<Word>): nat
    requires |w| >= 3
  {
    Pair(Pair(w[|w| - 1], w[|w| - 2]), w[|w| - 3])
  }

  function TopTwo(v: seq<Word>): nat
    requires |v| >= 2
  {
    Pair(v[|v| - 1], v[|v| - 2])
  }

  lemma LeadingThree(w: seq<Word>)
    requires |w| >= 3
    ensures Value(w) == Low(0x1_0000_0000, w, |w| - 3) + Pow(0x1_0000_0000, |w| - 3) * TopThree(w)
  {
    var n := |w| - 3;
    var p := Pow(0x1_0000_0000, n);
    assert Pow(0x1_0000_0000, n + 1) == 0x1_0000_0000 * p && Pow(0x1_0000_0000, n + 2) == 0x1_0000_0000 * (0x1_0000_0000 * p);
    assert Low(0x1_0000_0000, w, n + 1) == Low(0x1_0000_0000, w, n) + w[n] * p;
    assert Low(0x1_0000_0000, w, n + 2) == Low(0x1_0000_0000, w, n + 1) + w[n + 1] * (0x1_0000_0000 * p);
    ThreeDigits(p, w[n], w[n + 1], w[n + 2]);
  }

  lemma ThreeDigits(p: nat, a: nat, b: nat, c: nat)
    ensures a * p + b * (0x1_0000_0000 * p) + c * (0x1_0000_0000 * (0x1_0000_0000 * p))
         == p * Pair(Pair(c, b), a)
  {
  }

  lemma LeadingTwo(v: seq<Word>)
    requires |v| >= 2
    ensures Value(v) == Low(0x1_0000_0000, v, |v| - 2) + Pow(0x1_0000_0000, |v| - 2) * TopTwo(v)
  {
    var n := |v| - 2;
    var p := Pow(0x1_0000_0000, n);
    assert Low(0x1_0000_0000, v, n + 1) == Low(0x1_0000_0000, v, n) + v[n] * p;
    TwoDigits(p, v[n], v[n + 1]);
  }

  lemma TwoDigits(p: nat, a: nat, b: nat)
    ensures a * p + b * (0x1_0000_0000 * p) == p * Pair(b, a)
  {
  }

  lemma PrefixDivides(q: nat, w: nat, v: nat, p: nat, wLow: nat, wTop: nat, vLow: nat, vTop: nat)
    requires q * v <= w && w == wLow + p * wTop && v == vLow + p * vTop && wLow < p
    ensures q * vTop <= wTop
  {
    assert q * (vLow + p * vTop) == q * vLow + p * (q * vTop) by { assert q * (p * vTop) == p * (q * vTop); }
    assert p * (q * vTop) == (q * vTop) * p && (wTop + 1) * p == p * wTop + p;
    Bits.LessByProduct(q * vTop, wTop + 1, p);
  }

  /** A digit that fits the whole window fits its three leading limbs. */
  lemma DigitFitsTop(q: nat, w: seq<Word>, v: seq<Word>)
    requires |v| >= 2 && |w| == |v| + 1 && q * Value(v) <= Value(w)
    ensures q * TopTwo(v) <= TopThree(w)
  {
    hide Limbs.Value, Low, Pow, TopTwo, TopThree;
    LeadingThree(w);
    LeadingTwo(v);
    LowBound(0x1_0000_0000, w, |w| - 3);
    PrefixDivides(q, Value(w), Value(v), Pow(0x1_0000_0000, |w| - 3), Low(0x1_0000_0000, w, |w| - 3), TopThree(w),
                  Low(0x1_0000_0000, v, |v| - 2), TopTwo(v));
  }

  lemma TestMeaning(quick: nat, u0: nat, d1: nat, d0: nat, q: nat, r: nat)
    requires quick == q * d1 + r
    ensures q * d0 > Pair(r, u0) <==> q * Pair(d1, d0) > Pair(quick, u0)
  {
    assert q * Pair(d1, d0) == (q * d1) * 0x1_0000_0000 + q * d0;
  }

  /** Two-limb estimate of a quotient digit with its correction test.  The estimate never falls
      below a digit that fits the three leading limbs (given here as a ghost), and every product
      and shift stays inside 64 bits. */
  method EstimateDigit(u2: Word, u1: Word, u0: Word, denMsd: Word, denSubMsd: Word, ghost digit: Word)
    returns (tmpQuot: nat)
    requires denMsd >= 0x8000_0000 && u2 <= denMsd
    requires digit * Pair(denMsd, denSubMsd) <= Pair(Pair(u2, u1), u0)
    ensures digit <= tmpQuot <= 0x1_0000_0001
  {
    hide Pair;
    var quickDenominator := Pair(u2, u1);
    EstimateStarts(u2, u1, u0, denMsd, denSubMsd, digit);
    tmpQuot := quickDenominator / denMsd;
    var tmpRem := quickDenominator % denMsd;
    var flag := false;
    while !flag
      invariant digit <= tmpQuot <= 0x1_0000_0001
      invariant quickDenominator == tmpQuot * denMsd + tmpRem
      invariant !flag ==> tmpRem < 0x1_0000_0000
      decreases !flag, 0x1_0000_0000 - tmpRem
    {
      flag := true;
      ProductInWord(tmpQuot, denSubMsd);
      PairInWord(tmpRem, u0);
      if tmpQuot == 0x1_0000_0000
         || (tmpQuot * denSubMsd) % 0x1_0000_0000_0000_0000 > Pair(tmpRem, u0) % 0x1_0000_0000_0000_0000
      {
        TooLarge(tmpQuot, tmpRem, quickDenominator, denMsd, denSubMsd, u0, digit);
        tmpQuot := tmpQuot - 1;
        tmpRem := tmpRem + denMsd;
        if tmpRem < 0x1_0000_0000 {
          flag := false;
        }
      }
    }
  }

  lemma ProductInWord(q: nat, d: Word)
    requires q <= 0x1_0000_0001
    ensures q * d < 0x1_0000_0000_0000_0000
    ensures (q * d) % 0x1_0000_0000_0000_0000 == q * d
  {
    Grow(q, 0x1_0000_0001, d);
    SmallWord(q * d);
  }

  lemma SmallWord(v: nat)
    requires v < 0x1_0000_0000_0000_0000
    ensures v % 0x1_0000_0000_0000_0000 == v
  {
  }

  lemma PairInWord(hi: nat, lo: Word)
    requires hi < 0x1_0000_0000
    ensures Pair(hi, lo) % 0x1_0000_0000_0000_0000 == Pair(hi, lo)
  {
  }

  lemma EstimateStarts(u2: Word, u1: Word, u0: Word, d1: Word, d0: Word, digit: Word)
    requires d1 >= 0x8000_0000 && u2 <= d1
    requires digit * Pair(d1, d0) <= Pair(Pair(u2, u1), u0)
    ensures var quick := Pair(u2, u1);
      quick == (quick / d1) * d1 + quick % d1 && digit <= quick / d1 <= 0x1_0000_0001 && quick % d1 < d1
  {
    QuotientRange(Pair(u2, u1), d1);
    DigitBelow(Pair(u2, u1), u0, d1, d0, digit);
  }

  lemma QuotientRange(quick: nat, d1: Word)
    requires d1 >= 0x8000_0000 && quick < 0x1_0000_0002 * d1
    ensures quick == (quick / d1) * d1 + quick % d1 && quick / d1 <= 0x1_0000_0001
  {
    var e := quick / d1;
    assert quick == d1 * e + quick % d1;
    assert d1 * e == e * d1;
    Bits.LessByProduct(e, 0x1_0000_0002, d1);
  }

  lemma DigitBelow(quick: nat, u0: Word, d1: Word, d0: Word, digit: Word)
    requires d1 > 0 && digit * Pair(d1, d0) <= Pair(quick, u0)
    requires quick == (quick / d1) * d1 + quick % d1
    ensures digit <= quick / d1
  {
    DropLow(digit, d1, d0, quick, u0);
    var e := quick / d1;
    assert (e + 1) * d1 == e * d1 + d1;
    Bits.LessByProduct(digit, e + 1, d1);
  }

  lemma DropLow(digit: nat, d1: nat, d0: nat, quick: nat, u0: Word)
    requires digit * Pair(d1, d0) <= Pair(quick, u0)
    ensures digit * d1 <= quick
  {
    assert digit * Pair(d1, d0) == (digit * d1) * 0x1_0000_0000 + digit * d0;
  }

  /** The correction test fires only when the estimate is above the digit. */
  lemma TooLarge(e: nat, r: nat, quick: nat, d1: Word, d0: Word, u0: Word, digit: Word)
    requires quick == e * d1 + r && digit <= e
    requires e == 0x1_0000_0000 || e * d0 > Pair(r, u0)
    requires digit * Pair(d1, d0) <= Pair(quick, u0)
    ensures digit <= e - 1 && quick == (e - 1) * d1 + (r + d1)
  {
    TestMeaning(quick, u0, d1, d0, e, r);
    assert (e - 1) * d1 == e * d1 - d1;
  }

  /** Subtract-and-decrement until the estimate fits: one quotient digit and the new window. A negative
      divisor is never found too large, so its multiple stays added to the window. */
  method CorrectDigit(window: seq<Word>, denominator: BigInteger, estimate: nat)
    returns (tmpQuot: nat, remainder: BigInteger)
    requires denominator.Canonical() && denominator.Value() != 0
    requires estimate <= 0x1_0000_0001
    requires denominator.Value() > 0 ==> Value(window) / denominator.Value() <= estimate
    ensures fresh(remainder) && remainder.Canonical()
    ensures denominator.Value() > 0 ==>
      tmpQuot == Value(window) / denominator.Value() && remainder.Value() == Value(window) % denominator.Value()
    ensures denominator.Value() < 0 ==> tmpQuot == estimate && remainder.Value() == Value(window) - denominator.Value() * estimate
  {
    hide Limbs.Value;
    ValueEmpty();
    tmpQuot := estimate;
    var tmpRemBigInt := new BigInteger.FromWords(window, 1);
    var factor := new BigInteger.FromInt64(tmpQuot);
    var estimNumBigInt := denominator.Times(factor);
    var above := estimNumBigInt.Greater(tmpRemBigInt);
    ghost var d := denominator.Value();
    ghost var w := tmpRemBigInt.Value();
    if d < 0 { NeverAbove(w, d, tmpQuot); }
    while above
      invariant estimNumBigInt.Canonical() && tmpRemBigInt.Canonical() && tmpRemBigInt.Value() == w
      invariant denominator.Canonical() && denominator.Value() == d
      invariant estimNumBigInt.Value() == d * tmpQuot && (d > 0 ==> w / d <= tmpQuot) && (d < 0 ==> tmpQuot == estimate)
      invariant above == (d * tmpQuot > w)
      decreases tmpQuot
    {
      if d < 0 { NeverAbove(w, d, tmpQuot); }
      StepDown(w, d, tmpQuot);
      tmpQuot := tmpQuot - 1;
      estimNumBigInt := estimNumBigInt.Minus(denominator);
      above := estimNumBigInt.Greater(tmpRemBigInt);
    }
    remainder := tmpRemBigInt.Minus(estimNumBigInt);
    if d > 0 { Exact(w, d, tmpQuot); }
  }

  lemma NeverAbove(w: nat, d: int, q: nat)
    requires d < 0
    ensures d * q <= w
  {
    assert d * q == -((-d) * q);
  }

  lemma StepDown(w: nat, d: nat, q: nat)
    requires d > 0 && w / d <= q && d * q > w
    ensures q > 0 && w / d <= q - 1 && d * (q - 1) == d * q - d
  {
    assert w == d * (w / d) + w % d;
    assert d * (w / d) == (w / d) * d && d * q == q * d;
    Bits.LessByProduct(w / d, q, d);
  }

  lemma Exact(w: nat, d: nat, q: nat)
    requires d > 0 && w / d <= q && d * q <= w
    ensures q == w / d && w - d * q == w % d
  {
    assert w == d * (w / d) + w % d;
    assert (w / d + 1) * d == d * (w / d) + d && d * q == q * d;
    Bits.LessByProduct(q, w / d + 1, d);
  }

  // ---- normalisation ------------------------------------------------------------------------

  /** Leading zero bits of the divisor's top limb. */
  method CountShift(tmp2: Word) returns (shiftCount: nat)
    requires tmp2 > 0
    ensures shiftCount <= 31
    ensures Pow(2, 31 - shiftCount) <= tmp2 < Pow(2, 32 - shiftCount)
  {
    hide Pow;
    var tmp: nat := 0x8000_0000;
    shiftCount := 0;
    Halving(0);
    while tmp != 0 && Bits.And(tmp2, tmp) == 0
      invariant shiftCount <= 31 && tmp == Pow(2, 31 - shiftCount)
      invariant tmp2 < Pow(2, 32 - shiftCount)
      decreases tmp
    {
      Bits.AndTopBit(tmp2, 31 - shiftCount);
      Halving(shiftCount);
      shiftCount := shiftCount + 1;
      tmp := tmp / 2;
    }
    Halving(shiftCount);
    Bits.AndTopBit(tmp2, 31 - shiftCount);
  }

  lemma Halving(n: nat)
    requires n <= 31
    ensures Pow(2, 31) == 0x8000_0000 && Pow(2, 32) == 0x1_0000_0000 && Pow(2, 0) == 1
    ensures n < 31 ==> Pow(2, 31 - n) / 2 == Pow(2, 31 - (n + 1))
    ensures Pow(2, 32 - n) == 2 * Pow(2, 31 - n) && Pow(2, 31 - n) > 0
  {
    Pow32();
  }

  /** The shift moves the divisor's top bit to the top of its limb and changes no length. */
  lemma Normalised(den: seq<Word>, shifted: seq<Word>, shift: nat)
    requires |den| > 0 && shift <= 31 && Pow(2, 31 - shift) <= den[|den| - 1] < Pow(2, 32 - shift)
    requires |shifted| == |den| && Value(shifted) == Value(den) * Pow(2, shift)
    ensures shifted[|den| - 1] >= 0x8000_0000
    ensures Value(shifted) >= 0x8000_0000 * Pow(0x1_0000_0000, |den| - 1)
  {
    hide Pow;
    var n := |den| - 1;
    var p := Pow(0x1_0000_0000, n);
    PowAdd(2, 31 - shift, shift);
    Halving(0);
    Grow(Pow(2, 31 - shift), den[n], Pow(2, shift));
    LowBound(0x1_0000_0000, shifted, n);
    TopScaled(Low(0x1_0000_0000, den, n), den[n], p, Pow(2, shift), Value(shifted));
    TopCompare(0, 0x8000_0000, Low(0x1_0000_0000, shifted, n), shifted[n], p);
  }

  /** Comparing numbers of one length compares their top digits first. */
  lemma TopCompare(xLow: nat, x: nat, yLow: nat, y: nat, p: nat)
    requires yLow < p && xLow + x * p <= yLow + y * p
    ensures x <= y
  {
    assert (y + 1) * p == y * p + p;
    Bits.LessByProduct(x, y + 1, p);
  }

  lemma TopScaled(low: nat, top: nat, p: nat, s: nat, v: nat)
    requires v == (low + top * p) * s && top * s >= 0x8000_0000
    ensures v >= 0x8000_0000 * p
  {
    assert (low + top * p) * s == low * s + (top * s) * p;
    Grow(0x8000_0000, top * s, p);
  }

  lemma FitsOneLimb(top: Word, shift: nat)
    requires shift <= 31 && top < Pow(2, 32 - shift)
    ensures Shifts.Shl(top, shift) < 0x1_0000_0000
  {
    hide Pow;
    Shifts.SplitPowers(shift);
    var s, t := Pow(2, shift), Pow(2, 32 - shift);
    assert t * s == top * s + (t - top) * s;
    Bits.Times(t - top, s);
  }

  // ---- the outer loop -----------------------------------------------------------------------

  /** The digits from position k up, k included. */
  function Upper(u: seq<Word>, k: nat): nat
    requires k <= |u|
  {
    Value(u[k..])
  }

  /** A window under a cleared upper part: below limb k, limbs k up to k + size, zeros above. */
  lemma WindowValue(u: seq<Word>, k: nat, size: nat)
    requires k + size <= |u| && forall i :: k + size <= i < |u| ==> u[i] == 0
    ensures Value(u) == Low(0x1_0000_0000, u, k) + Pow(0x1_0000_0000, k) * Value(u[k..k + size])
    ensures Upper(u, k) == Value(u[k..k + size])
  {
    ValSplit(0x1_0000_0000, u, k);
    KeepLow(u[k..], size);
    assert u[k..][..size] == u[k..k + size];
  }

  /** Every step of the outer loop: what has been divided off plus what remains is the numerator,
      the remainder above limb j is below the divisor, and nothing is left above the window. */
  ghost predicate OuterState(u0: nat, u: seq<Word>, quot: seq<Word>, j: nat, d: nat, m: nat)
  {
    && j + m <= |u|
    && (forall i :: j + m <= i < |u| ==> u[i] == 0)
    && Upper(u, j) < d
    && j <= |quot| && (forall i :: 0 <= i < j ==> quot[i] == 0)
    && u0 == Value(quot) * d + Value(u)
  }

  lemma QuotientStep(quot: nat, d: nat, q: nat, p: nat, low: nat, w: nat, r: nat, u0: nat)
    requires u0 == quot * d + (low + p * w) && w == d * q + r
    ensures u0 == (quot + q * p) * d + (low + p * r)
  {
    assert p * (d * q + r) == p * (d * q) + p * r;
    assert (quot + q * p) * d == quot * d + p * (d * q);
  }

  /** Writing back one window keeps the state one position lower. */
  lemma OuterStep(u0: nat, u: seq<Word>, u': seq<Word>, quot: seq<Word>, j: nat, d: nat, m: nat, q: Word, r: seq<Word>)
    requires j > 0 && m > 0 && d > 0 && OuterState(u0, u, quot, j, d, m) && j + m <= |u|
    requires |r| == m + 1 && Value(r) < d && r[m] == 0
    requires Value(u[j - 1..j + m]) == d * q + Value(r)
    requires u' == u[..j - 1] + r + u[j + m..]
    ensures OuterState(u0, u', quot[j - 1 := q], j - 1, d, m)
  {
    hide Pow;
    WindowValue(u, j - 1, m + 1);
    assert u'[j - 1..j + m] == r;
    WindowValue(u', j - 1, m + 1);
    LowSame(0x1_0000_0000, u', u, j - 1);
    ValUpdate(0x1_0000_0000, quot, j - 1, q);
    QuotientStep(Value(quot), d, q, Pow(0x1_0000_0000, j - 1), Low(0x1_0000_0000, u, j - 1),
                 Value(u[j - 1..j + m]), Value(r), u0);
  }

  /** The window's value and leading limb are small enough for the digit to be one limb. */
  lemma WindowBounds(u: seq<Word>, j: nat, d: nat, m: nat, den: seq<Word>)
    requires j > 0 && m >= 2 && j + m <= |u| && Upper(u, j) < d == Value(den) && |den| == m
    requires forall i :: j + m <= i < |u| ==> u[i] == 0
    ensures Value(u[j - 1..j + m]) < 0x1_0000_0000 * d
    ensures u[j + m - 1] <= den[m - 1]
    ensures Value(u[j - 1..j + m]) / d < 0x1_0000_0000
  {
    hide Pow;
    var w, t := u[j - 1..j + m], u[j..j + m];
    WindowValue(u, j, m);
    ValCons(0x1_0000_0000, w[0], t);
    assert w == [w[0]] + t;
    TopOfWindow(t, den);
    SmallDigit(Value(w), d);
  }

  lemma TopOfWindow(t: seq<Word>, den: seq<Word>)
    requires |t| == |den| > 0 && Value(t) < Value(den)
    ensures t[|t| - 1] <= den[|t| - 1]
  {
    hide Pow;
    var n := |t| - 1;
    LowBound(0x1_0000_0000, den, n);
    TopCompare(Low(0x1_0000_0000, t, n), t[n], Low(0x1_0000_0000, den, n), den[n], Pow(0x1_0000_0000, n));
  }

  lemma SmallDigit(w: nat, d: nat)
    requires w < 0x1_0000_0000 * d
    ensures w / d < 0x1_0000_0000
  {
    assert w == d * (w / d) + w % d;
    assert d * (w / d) == (w / d) * d;
    Bits.LessByProduct(w / d, 0x1_0000_0000, d);
  }

  /** Before the first digit the upper part of the shifted numerator is below the divisor. */
  lemma OuterStart(num: seq<Word>, u: seq<Word>, shift: nat, k: nat, m: nat, d: nat)
    requires |u| == |num| + 1 && k + m == |u| && m >= 1 && shift <= 31
    requires Value(u) == Value(num) * Pow(2, shift)
    requires d >= 0x8000_0000 * Pow(0x1_0000_0000, m - 1)
    ensures Upper(u, k) < d
  {
    hide Pow;
    ValSplit(0x1_0000_0000, u, k);
    ValBound(0x1_0000_0000, num);
    PowMono(2, shift, 31);
    Halving(0);
    PowAdd(0x1_0000_0000, k, m - 1);
    StartBound(Value(num), Pow(2, shift), Pow(0x1_0000_0000, k), Pow(0x1_0000_0000, m - 1), Upper(u, k));
  }

  lemma StartBound(num: nat, s: nat, pk: nat, pm: nat, upper: nat)
    requires num < pk * pm && s <= 0x8000_0000 && pk * upper <= num * s && s > 0
    ensures upper < 0x8000_0000 * pm
  {
    assert num * s < (pk * pm) * s by { Grow(num + 1, pk * pm, s); assert (num + 1) * s == num * s + s; }
    Grow(s, 0x8000_0000, pk * pm);
    assert (pk * pm) * s == s * (pk * pm);
    assert 0x8000_0000 * (pk * pm) == (0x8000_0000 * pm) * pk;
    assert pk * upper == upper * pk;
    Bits.LessByProduct(upper, 0x8000_0000 * pm, pk);
  }

  /** Undoing the normalising shift at the end. */
  lemma Unshift(num: nat, den: nat, s: nat, q: nat, r: nat)
    requires s > 0 && den > 0 && num * s == q * (den * s) + r && r < den * s
    ensures num == q * den + r / s && r / s < den
  {
    assert q * (den * s) == (q * den) * s;
    var diff := num - q * den;
    assert diff * s == r by { assert (num - q * den) * s == num * s - (q * den) * s; }
    Bits.DivModIs(r, s, diff, 0);
    Bits.LessByProduct(diff, den, s);
  }

  /** One pass of the outer loop: estimate, correct, and the new remainder window. */
  method OuterDigit(remArray: seq<Word>, remIter: nat, denominator: BigInteger)
    returns (tmpQuot: Word, window: seq<Word>)
    requires denominator.Canonical() && denominator.sign == 1 && |denominator.data| >= 2
    requires denominator.data[|denominator.data| - 1] >= 0x8000_0000
    requires |denominator.data| <= remIter < |remArray|
    requires forall i :: remIter < i < |remArray| ==> remArray[i] == 0
    requires Upper(remArray, remIter - |denominator.data| + 1) < denominator.Value()
    ensures |window| == |denominator.data| + 1 && window[|denominator.data|] == 0
    ensures Value(window) < denominator.Value()
    ensures Value(remArray[remIter - |denominator.data|..remIter + 1]) == denominator.Value() * tmpQuot + Value(window)
  {
    hide Limbs.Value, Pair;
    ghost var d := denominator.Value();
    var m := |denominator.data|;
    var denSize := m + 1;
    var tmpRemSubArray := remArray[remIter + 1 - denSize..remIter + 1];
    WindowBounds(remArray, remIter - m + 1, d, m, denominator.data);
    ghost var digit := Value(tmpRemSubArray) / d;
    QuotientTimes(Value(tmpRemSubArray), d);
    DigitFitsTop(digit, tmpRemSubArray, denominator.data);
    var estimate := EstimateDigit(remArray[remIter], remArray[remIter - 1], remArray[remIter - 2],
                                  denominator.data[m - 1], denominator.data[m - 2], digit);
    var quotient, estimRemBigInt := CorrectDigit(tmpRemSubArray, denominator, estimate);
    tmpQuot := quotient;
    window := WriteWindow(estimRemBigInt.data, m);
    RemainderLength(estimRemBigInt.data, denominator.data);
    WindowHolds(estimRemBigInt.data, window);
  }

  lemma QuotientTimes(w: nat, d: nat)
    requires d > 0
    ensures (w / d) * d <= w && w == d * (w / d) + w % d && 0 <= w % d < d
  {
    assert d * (w / d) == (w / d) * d;
  }

  /** The new window, written from the top limb down; limbs the remainder lacks are zero. */
  method WriteWindow(remainder: seq<Word>, m: nat) returns (window: seq<Word>)
    ensures |window| == m + 1 && forall i :: 0 <= i <= m ==> window[i] == WordAt(remainder, i)
  {
    window := ZeroLimbs(m + 1);
    var k := 0;
    while k < m + 1
      invariant 0 <= k <= m + 1 && |window| == m + 1
      invariant forall i :: m - k < i <= m ==> window[i] == WordAt(remainder, i)
    {
      window := window[m - k := if m - k < |remainder| then remainder[m - k] else 0];
      k := k + 1;
    }
  }

  /** A remainder is no longer than the divisor. */
  lemma RemainderLength(r: seq<Word>, den: seq<Word>)
    requires (Value(r) != 0 ==> Trimmed(r)) && (Value(r) == 0 ==> r == [0])
    requires Value(r) < Value(den) && den != []
    ensures |r| <= |den|
  {
    if |r| > |den| {
      ShorterIsLess(0x1_0000_0000, den, r);
    }
  }

  lemma WindowHolds(r: seq<Word>, window: seq<Word>)
    requires |r| <= |window| && forall i :: 0 <= i < |window| ==> window[i] == WordAt(r, i)
    ensures Value(window) == Value(r)
  {
    LowSame(0x1_0000_0000, window, r, |window|);
    LowPast(0x1_0000_0000, r, |window|);
  }

  /** Algorithm D.  The divisor has at least two limbs and the numerator at least as many. */
  method MultiDigitDivMod(numerator: BigInteger, denominator: BigInteger) returns (quot: BigInteger, rem: BigInteger)
    requires denominator.Canonical() && denominator.sign == 1 && |denominator.data| >= 2
    requires |numerator.data| >= |denominator.data|
    ensures fresh(quot) && fresh(rem) && quot != rem && quot.Canonical() && rem.Canonical()
    ensures quot.Value() == Value(numerator.data) / denominator.Value()
    ensures rem.Value() == Value(numerator.data) % denominator.Value()
  {
    hide Limbs.Value, Pow;
    ghost var d0: nat := Value(denominator.data);
    var shiftCount := CountShift(denominator.data[|denominator.data| - 1]);
    FitsOneLimb(denominator.data[|denominator.data| - 1], shiftCount);
    var remArray := numerator.data + [0];
    AppendZero(numerator.data);
    remArray := Shifts.ShiftLeft(remArray, shiftCount);
    Shifts.ShlZero(0, shiftCount);
    var shifted := new BigInteger.Copy(denominator);
    shifted.ShiftLeftAssign(shiftCount);
    ghost var d: nat := Value(shifted.data);
    Shifts.ShlIs(Value(numerator.data), shiftCount);
    Normalised(denominator.data, shifted.data, shiftCount);
    OuterStart(numerator.data, remArray, shiftCount, |numerator.data| - |shifted.data| + 1, |shifted.data|, d);
    var quotArray, remainder := OuterLoop(remArray, |numerator.data|, shifted);
    remArray := Shifts.ShiftRight(remainder, shiftCount);
    Shifts.ShrIs(Value(remainder), shiftCount);
    Unshift(Value(numerator.data), d0, Pow(2, shiftCount), Value(quotArray), Value(remainder));
    quot := new BigInteger.FromWords(quotArray, 1);
    rem := new BigInteger.FromWords(remArray, 1);
    Bits.DivModIs(Value(numerator.data), d0, Value(quotArray), Value(remArray));
    quot.Trim();
    rem.Trim();
  }

  lemma AppendZero(s: seq<Word>)
    ensures Value(s + [0]) == Value(s)
  {
    ValSnoc(0x1_0000_0000, s, 0);
  }

  /** The outer loop over quotient positions, most significant first. */
  method OuterLoop(start: seq<Word>, numeratorSize: nat, denominator: BigInteger)
    returns (quotArray: seq<Word>, remArray: seq<Word>)
    requires denominator.Canonical() && denominator.sign == 1 && |denominator.data| >= 2
    requires denominator.data[|denominator.data| - 1] >= 0x8000_0000
    requires |start| == numeratorSize + 1 && numeratorSize >= |denominator.data|
    requires Upper(start, numeratorSize - |denominator.data| + 1) < denominator.Value()
    ensures Value(start) == Value(quotArray) * denominator.Value() + Value(remArray)
    ensures Value(remArray) < denominator.Value()
  {
    hide Limbs.Value;
    var m := |denominator.data|;
    ghost var d: nat := denominator.Value();
    remArray := start;
    quotArray := ZeroLimbs(numeratorSize - m + 1);
    AllZero(quotArray);
    var j := numeratorSize - m + 1;
    var remIter := numeratorSize;
    assert 0 * d == 0;
    while j > 0
      invariant denominator.Canonical() && denominator.Value() == d
      invariant 0 <= j == remIter - m + 1 && remIter <= numeratorSize
      invariant |remArray| == numeratorSize + 1 && |quotArray| == numeratorSize - m + 1
      invariant OuterState(Value(start), remArray, quotArray, j, d, m)
      decreases j
    {
      var tmpQuot, window := OuterDigit(remArray, remIter, denominator);
      ghost var before := remArray;
      remArray := remArray[..remIter - m] + window + remArray[remIter + 1..];
      OuterStep(Value(start), before, remArray, quotArray, j, d, m, tmpQuot, window);
      remIter := remIter - 1;
      j := j - 1;
      quotArray := quotArray[j := tmpQuot];
    }
    assert remArray[0..] == remArray;
  }

  lemma AllZero(s: seq<Word>)
    requires forall i :: 0 <= i < |s| ==> s[i] == 0
    ensures Value(s) == 0
  {
    LowZeros(0x1_0000_0000, s, |s|);
  }
}