/** Signed division: the dispatcher over the dividend's size, and operators / and % on top of it. */
module Division {
  import opened Positional
  import opened Limbs
  import opened BigIntegers
  import LongDivision
  import Bits

  function Magnitude(x: int): nat {
    if x < 0 then -x else x
  }

  function Sign(x: int): int {
    if x < 0 then -1 else if x == 0 then 0 else 1
  }

  /** Quotient rounded towards zero. */
  function TruncDiv(a: int, b: int): int
    requires b != 0
  {
    if (a < 0) == (b < 0) then Magnitude(a) / Magnitude(b) else -(Magnitude(a) / Magnitude(b) as int)
  }

  /** Remainder with the dividend's sign. */
  function TruncMod(a: int, b: int): int
    requires b != 0
  {
    if a < 0 then -(Magnitude(a) % Magnitude(b) as int) else Magnitude(a) % Magnitude(b)
  }

  /** The division law, and that it determines both results. */
  lemma DivisionLaw(a: int, b: int)
    requires b != 0
    ensures a == TruncDiv(a, b) * b + TruncMod(a, b)
    ensures Magnitude(TruncMod(a, b)) < Magnitude(b)
    ensures TruncMod(a, b) == 0 || Sign(TruncMod(a, b)) == Sign(a)
  {
    var q: int, r: int := Magnitude(a) / Magnitude(b), Magnitude(a) % Magnitude(b);
    assert Magnitude(a) == Magnitude(b) * q + r;
    assert (-q) * b == -(q * b) && q * (-b) == -(q * b);
    assert Magnitude(b) * q == q * Magnitude(b);
  }

  lemma DivisionUnique(a: int, b: int, q: int, r: int)
    requires b != 0 && a == q * b + r
    requires Magnitude(r) < Magnitude(b) && (r == 0 || Sign(r) == Sign(a))
    ensures q == TruncDiv(a, b) && r == TruncMod(a, b)
  {
    var m, n := Magnitude(a), Magnitude(b);
    var k := if (a < 0) == (b < 0) then q else -q;
    assert (-q) * b == -(q * b) && q * (-b) == -(q * b) && (-q) * (-b) == q * b;
    assert m == k * n + Magnitude(r);
    Bits.DivModIs(m, n, k, Magnitude(r));
  }

  /** What a caller of division asks for: the parts add up, and the remainder is below the divisor. */
  predicate DivisionHolds(a: int, b: int, q: int, r: int) {
    a == q * b + r && Magnitude(r) < Magnitude(b)
  }

  /** With the divisor added to the remainder of a negative dividend the parts add up to a + b. */
  lemma DirectDivisionOfNegatives(a: int, b: int)
    requires a < 0 && b != 0
    ensures TruncDiv(a, b) * b + (b + TruncMod(a, b)) == a + b != a
    ensures !DivisionHolds(a, b, TruncDiv(a, b), b + TruncMod(a, b))
  {
    DivisionLaw(a, b);
  }

  /** Divides magnitudes and then fixes the signs. A zero divisor is refused. For a negative dividend at
      least as long as the divisor the remainder comes out with the divisor added, and of the inputs taken
      here those are exactly the ones whose results do not divide. A negative divisor of two limbs or more
      is taken only for a shorter dividend. */
  method DivideAndModulus(a: BigInteger, b: BigInteger) returns (ok: bool, quot: BigInteger, rem: BigInteger)
    requires a.Canonical() && b.Canonical() && (b.sign >= 0 || |b.data| == 1 || |a.data| < |b.data|)
    ensures fresh(quot) && fresh(rem) && quot != rem && quot.Valid()
    ensures ok <==> b.Value() != 0
    ensures !ok ==> quot.Value() == 0 && quot.Canonical() && rem.Value() == 0 && rem.Canonical()
    ensures ok ==> rem.Canonical() && (quot.data == [] || quot.Canonical())
    ensures ok ==> (quot.data == [] <==> Magnitude(a.Value()) < Magnitude(b.Value()) < 0x1_0000_0000)
    ensures ok ==> quot.Value() == TruncDiv(a.Value(), b.Value())
    ensures ok && |a.data| < |b.data| ==> quot.Value() == 0 && rem.Value() == a.Value()
    ensures ok && |a.data| >= |b.data| ==> rem.Value() == (if a.Value() < 0 then b.Value() else 0) + TruncMod(a.Value(), b.Value())
    ensures ok && a.Value() >= 0 && b.Value() > 0 ==> quot.Value() == a.Value() / b.Value() && rem.Value() == a.Value() % b.Value()
    ensures ok ==> (DivisionHolds(a.Value(), b.Value(), quot.Value(), rem.Value()) <==> a.Value() >= 0 || |a.data| < |b.data|)
  {
    hide Limbs.Value, TruncDiv, TruncMod, DivisionHolds;
    ValueEmpty();
    if b.sign == 0 {
      quot := new BigInteger.FromInt64(0);
      rem := new BigInteger.FromInt64(0);
      return false, quot, rem;
    }
    ok := true;
    CanonicalLimbs(a.data);
    CanonicalLimbs(b.data);
    MagnitudeOf(a);
    MagnitudeOf(b);
    SignedResults(a.Value(), b.Value());
    DividesExactly(a.Value(), b.Value(), |a.data| < |b.data|);
    if |a.data| < |b.data| {
      quot := new BigInteger.FromInt64(0);
      rem := new BigInteger.Copy(a);
      ShorterLimbs(a.data, b.data);
      ShortDividend(a.Value(), b.Value());
      return;
    }
    quot, rem := DivideFixed(a, b);
  }

  /** The law holds of the truncated pair and fails once the divisor is added. */
  lemma DividesExactly(a: int, b: int, shorter: bool)
    requires b != 0
    ensures DivisionHolds(a, b, TruncDiv(a, b), TruncMod(a, b))
    ensures DivisionHolds(a, b, TruncDiv(a, b), (if a < 0 && !shorter then b else 0) + TruncMod(a, b)) <==> a >= 0 || shorter
  {
    DivisionLaw(a, b);
    if a < 0 { DirectDivisionOfNegatives(a, b); }
  }

  lemma ShortDividend(a: int, b: int)
    requires Magnitude(a) < Magnitude(b)
    ensures TruncDiv(a, b) == 0 && TruncMod(a, b) == a
  {
    Bits.DivModIs(Magnitude(a), Magnitude(b), 0, Magnitude(a));
  }

  /** -7 divided by 5, through the direct entry point: -1 with remainder 3. */
  method DirectDivisionOfSeven() returns (q: BigInteger, r: BigInteger)
    ensures q.Value() == -1 && r.Value() == 3 && !DivisionHolds(-7, 5, q.Value(), r.Value())
  {
    hide Limbs.Value;
    var a := new BigInteger.FromInt64(-7);
    var b := new BigInteger.FromInt64(5);
    SmallLimbs(a, -7);
    SmallLimbs(b, 5);
    var ok;
    ok, q, r := DivideAndModulus(a, b);
    assert TruncDiv(-7, 5) == -1 && TruncMod(-7, 5) == -2;
  }

  lemma SmallLimbs(a: BigInteger, v: int)
    requires a.Canonical() && a.Value() == v && 0 < Magnitude(v) < 0x1_0000_0000
    ensures |a.data| == 1
  {
    hide Limbs.Value;
    MagnitudeOf(a);
    CanonicalLimbs(a.data);
  }

  /** The case of a dividend at least as long as the divisor. */
  method DivideFixed(a: BigInteger, b: BigInteger) returns (quot: BigInteger, rem: BigInteger)
    requires a.Canonical() && b.Canonical() && 1 <= |b.data| <= |a.data| && (b.sign == 1 || (b.sign == -1 && |b.data| == 1))
    ensures fresh(quot) && fresh(rem) && quot != rem && quot.Valid()
    ensures rem.Canonical() && (quot.data == [] || quot.Canonical())
    ensures quot.data == [] <==> Magnitude(a.Value()) < Magnitude(b.Value()) < 0x1_0000_0000
    ensures b.Value() != 0 && quot.Value() == TruncDiv(a.Value(), b.Value())
    ensures rem.Value() == (if a.Value() < 0 then b.Value() else 0) + TruncMod(a.Value(), b.Value())
  {
    hide Limbs.Value, TruncDiv, TruncMod, Sign, Magnitude;
    ValueEmpty();
    MagnitudeOf(a);
    MagnitudeOf(b);
    SignOf(b.Value());
    var s := a.sign * b.sign;
    FixedResults(a.Value(), b.Value(), a.sign, s);
    quot, rem := DivideLong(a, b);
    rem.sign := a.sign;
    rem := FixRemainder(a, b, rem);
    quot.SettleSign(s);
    rem.SettleSign(rem.sign);
  }

  lemma SignOf(b: int)
    ensures Sign(b) == 0 <==> b == 0
    ensures Sign(b) in {-1, 0, 1}
  {
  }

  lemma MagnitudeOf(a: BigInteger)
    requires a.Valid()
    ensures Magnitude(a.Value()) == Value(a.data) && a.sign == Sign(a.Value())
  {
    LeadingLimb(a.data);
  }

  lemma FixedResults(a: int, b: int, sign: int, s: int)
    requires b != 0 && sign == Sign(a) && s == Sign(a) * Sign(b)
    ensures Magnitude(b) > 0 && s in {-1, 0, 1}
    ensures var q: int := Magnitude(a) / Magnitude(b);
      (if s < 0 then -q else q) == TruncDiv(a, b) && (s == 0 ==> q == 0)
    ensures sign < 0 ==> a < 0 && b - Magnitude(a) % Magnitude(b) == b + TruncMod(a, b)
    ensures sign >= 0 ==> Magnitude(a) % Magnitude(b) == TruncMod(a, b) && a >= 0
    ensures sign == 0 ==> Magnitude(a) % Magnitude(b) == 0
  {
    SignedResults(a, b);
    SignTimes(Sign(a), Sign(b));
  }

  lemma SignTimes(s: int, t: int)
    requires s in {-1, 0, 1} && t in {-1, 0, 1}
    ensures s * t == (if s == 0 || t == 0 then 0 else if s == t then 1 else -1)
  {
  }

  lemma ShorterLimbs(a: seq<Word>, b: seq<Word>)
    requires |a| < |b| && Trimmed(b)
    ensures Value(a) < Value(b)
  {
    ShorterIsLess(0x1_0000_0000, a, b);
  }

  /** How the unsigned quotient and remainder carry over to signed operands. */
  lemma SignedResults(a: int, b: int)
    requires b != 0
    ensures Magnitude(b) > 0
    ensures TruncDiv(a, b) == (if Sign(a) == 0 then 0 else if Sign(a) == Sign(b) then Magnitude(a) / Magnitude(b)
                               else -(Magnitude(a) / Magnitude(b) as int))
    ensures TruncMod(a, b) == (if Sign(a) < 0 then -(Magnitude(a) % Magnitude(b) as int) else Magnitude(a) % Magnitude(b))
    ensures Magnitude(a) / Magnitude(b) == 0 <==> Magnitude(a) < Magnitude(b)
    ensures 0 <= Magnitude(a) % Magnitude(b) < Magnitude(b)
    ensures a == 0 ==> Magnitude(a) % Magnitude(b) == 0
    ensures a >= 0 && b > 0 ==> TruncDiv(a, b) == a / b && TruncMod(a, b) == a % b
  {
    if Magnitude(a) < Magnitude(b) {
      Bits.DivModIs(Magnitude(a), Magnitude(b), 0, Magnitude(a));
    } else {
      assert Magnitude(a) == Magnitude(b) * (Magnitude(a) / Magnitude(b)) + Magnitude(a) % Magnitude(b);
    }
  }

  /** The two division routines behind one contract: unsigned quotient and remainder. */
  method DivideLong(a: BigInteger, b: BigInteger) returns (quot: BigInteger, rem: BigInteger)
    requires a.Canonical() && b.Canonical() && 1 <= |b.data| <= |a.data| && (b.sign == 1 || (b.sign == -1 && |b.data| == 1))
    ensures fresh(quot) && fresh(rem) && quot != rem && quot.Valid() && rem.Canonical()
    ensures Value(b.data) > 0 && quot.Value() == Value(a.data) / Value(b.data) && rem.Value() == Value(a.data) % Value(b.data)
    ensures quot.data != [] ==> quot.Canonical()
    ensures quot.data == [] <==> Value(a.data) < Value(b.data) < 0x1_0000_0000
  {
    hide Limbs.Value;
    CanonicalLimbs(b.data);
    SizesDecide(a.data, b.data);
    if |b.data| == 1 {
      quot, rem := LongDivision.SingleDigitDivMod(a, b);
    } else {
      quot, rem := LongDivision.MultiDigitDivMod(a, b);
      ValueEmpty();
    }
  }

  /** The last correction: a negative dividend's remainder gets the divisor added. */
  method FixRemainder(a: BigInteger, b: BigInteger, rem: BigInteger) returns (fixed: BigInteger)
    requires a.Canonical() && b.Canonical() && b.sign != 0
    requires rem.sign == a.sign && rem.data != [] && (|rem.data| > 1 ==> Trimmed(rem.data))
    requires a.sign == 0 ==> rem.data == [0]
    ensures fixed == rem || fresh(fixed)
    ensures fixed.data != [] && (|fixed.data| > 1 ==> Trimmed(fixed.data)) && fixed.sign in {-1, 0, 1}
    ensures fixed.sign == 0 ==> Value(fixed.data) == 0
    ensures a.sign >= 0 ==> fixed == rem
    ensures a.sign < 0 ==> fixed.Canonical() && fixed.Value() == b.Value() - Value(rem.data)
  {
    hide Limbs.Value;
    ValueEmpty();
    CanonicalLimbs(rem.data);
    if a.sign >= 0 {
      fixed := rem;
    } else {
      fixed := b.Plus(rem);
    }
  }

  lemma CanonicalLimbs(s: seq<Word>)
    ensures |s| == 1 ==> Value(s) == s[0]
    ensures |s| > 1 && Trimmed(s) ==> Value(s) >= 0x1_0000_0000
    ensures s == [] ==> Value(s) == 0
  {
    if |s| == 1 {
      ValueOne(s[0]);
      assert s == [s[0]];
    } else if |s| > 1 && Trimmed(s) {
      ValLead(0x1_0000_0000, s);
      PowMono(0x1_0000_0000, 1, |s| - 1);
      assert Pow(0x1_0000_0000, 1) == 0x1_0000_0000 * Pow(0x1_0000_0000, 0);
    }
  }

  /** A single-limb divisor is below 2^32 and a longer one is not. */
  lemma SizesDecide(a: seq<Word>, b: seq<Word>)
    requires b != [] && (|b| > 1 ==> Trimmed(b)) && (|a| > 1 ==> Trimmed(a))
    ensures |b| == 1 <==> Value(b) < 0x1_0000_0000
    ensures |a| == 1 && |b| == 1 ==> (Value(a) < Value(b) <==> a[0] < b[0])
    ensures |a| > 1 && |b| == 1 ==> Value(a) >= Value(b)
  {
    CanonicalLimbs(a);
    CanonicalLimbs(b);
  }

  /** operator/.  A quotient of zero is left without limbs when both magnitudes are one limb. */
  method Quotient(a: BigInteger, b: BigInteger) returns (ok: bool, quot: BigInteger)
    requires a.Valid() && b.Valid()
    ensures fresh(quot) && quot.Valid() && (ok <==> b.Value() != 0)
    ensures ok ==> quot.Value() == TruncDiv(a.Value(), b.Value())
    ensures !ok ==> quot.Value() == 0
    ensures ok ==> (quot.Canonical() <==> !(Magnitude(a.Value()) < Magnitude(b.Value()) < 0x1_0000_0000))
  {
    hide Limbs.Value, TruncDiv, TruncMod, Sign, Magnitude;
    MagnitudeOf(a);
    MagnitudeOf(b);
    var absA := BigInteger.Abs(a);
    var absB := BigInteger.Abs(b);
    MagnitudeOf(absA);
    MagnitudeOf(absB);
    var rem;
    ok, quot, rem := DivideAndModulus(absA, absB);
    if ok { QuotientSign(a.Value(), b.Value(), a.sign * b.sign); }
    ValueEmpty();
    quot.sign := if quot.sign == 0 then 0 else a.sign * b.sign;
  }

  lemma QuotientSign(a: int, b: int, s: int)
    requires b != 0 && s == Sign(a) * Sign(b)
    ensures Magnitude(b) > 0 && Magnitude(Magnitude(a)) == Magnitude(a)
    ensures var q: int := Magnitude(a) / Magnitude(b);
      TruncDiv(a, b) == (if q == 0 then 0 else if s < 0 then -q else q) && (q != 0 ==> s in {-1, 1})
    ensures Magnitude(a) / Magnitude(b) >= 0
  {
    SignedResults(a, b);
    SignTimes(Sign(a), Sign(b));
  }

  /** operator%: the remainder keeps the dividend's sign. */
  method Remainder(a: BigInteger, b: BigInteger) returns (ok: bool, rem: BigInteger)
    requires a.Valid() && b.Valid()
    ensures fresh(rem) && rem.Canonical() && (ok <==> b.Value() != 0)
    ensures ok ==> rem.Value() == TruncMod(a.Value(), b.Value())
    ensures !ok ==> rem.Value() == 0
  {
    hide Limbs.Value, TruncDiv, TruncMod;
    var absA := BigInteger.Abs(a);
    var absB := BigInteger.Abs(b);
    assert absA.Value() == Magnitude(a.Value()) && absB.Value() == Magnitude(b.Value());
    var quot;
    ok, quot, rem := DivideAndModulus(absA, absB);
    if ok { SignedResults(a.Value(), b.Value()); }
    rem.SettleSign(a.sign);
  }
}
