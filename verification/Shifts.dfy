/** The in-place shifts of limb vectors.  A C++ shift of a 32-bit word by the full count is taken
    modulo 32, as the common instruction sets do; the language leaves counts above 31 undefined. */
module Shifts {
  import opened Positional
  import Bits
  import opened Limbs

  /** A left shift in a word wide enough to lose nothing. */
  function Shl(b: nat, q: nat): nat {
    b * Pow(2, q)
  }

  function Shr(b: nat, q: nat): nat {
    b / Pow(2, q)
  }

  function LowHalf(v: nat): Word {
    v % 0x1_0000_0000
  }

  function HighHalf(v: nat): nat {
    v / 0x1_0000_0000
  }

  // ---- one limb -----------------------------------------------------------------------------

  lemma SplitPowers(q: nat)
    requires q <= 32
    ensures Pow(2, q) * Pow(2, 32 - q) == 0x1_0000_0000 == Pow(2, 32 - q) * Pow(2, q)
  {
    PowAdd(2, q, 32 - q);
    Pow32();
  }

  lemma LimbShift(shift: nat)
    ensures Pow(2, shift) == Pow(0x1_0000_0000, shift / 32) * Pow(2, shift % 32)
  {
    PowAdd(2, 32 * (shift / 32), shift % 32);
    PowPow(2, 32, shift / 32);
    Pow32();
  }

  lemma ProductBelow(s: nat, t: nat, r: nat, c: nat)
    requires r < t && c < s
    ensures c + s * r < s * t
  {
    assert s * t == s * r + s * (t - r);
    Bits.Times(t - r, s);
    assert s * (t - r) == (t - r) * s;
  }

  /** A limb times s, where s * t is one limb, falls apart at the limb boundary. */
  lemma ShiftSplit(b: Word, s: nat, t: nat)
    requires s > 0 && t > 0 && s * t == 0x1_0000_0000
    ensures (b * s) % 0x1_0000_0000 == s * (b % t)
    ensures (b * s) / 0x1_0000_0000 == b / t < s
  {
    var q, r := b / t, b % t;
    assert b == t * q + r;
    assert b * s == q * 0x1_0000_0000 + s * r by {
      assert (t * q + r) * s == (t * q) * s + r * s;
      assert (t * q) * s == q * (s * t);
    }
    ProductBelow(s, t, r, 0);
    Bits.DivModIs(b * s, 0x1_0000_0000, q, s * r);
    if q >= s {
      Grow(s, q, t);
    }
  }

  lemma MultipleOf(s: nat, r: nat)
    requires s > 0
    ensures (s * r) % s == 0
  {
    Bits.ModMultiple(r, s);
    assert r * s == s * r;
  }

  lemma ShlHalves(b: Word, q: nat)
    requires q <= 32
    ensures LowHalf(Shl(b, q)) == Pow(2, q) * (b % Pow(2, 32 - q))
    ensures HighHalf(Shl(b, q)) == b / Pow(2, 32 - q) < Pow(2, q) <= 0x1_0000_0000
    ensures LowHalf(Shl(b, q)) + 0x1_0000_0000 * HighHalf(Shl(b, q)) == Shl(b, q)
  {
    SplitPowers(q);
    ShiftSplit(b, Pow(2, q), Pow(2, 32 - q));
    PowMono(2, q, 32);
    Pow32();
  }

  /** ORing a shifted limb over the bits carried in from below adds it, and stays one limb. */
  lemma OrShifted(c: Word, b: Word, q: nat)
    requires q <= 32 && c < Pow(2, q)
    ensures Bits.Or(c, LowHalf(Shl(b, q))) == c + LowHalf(Shl(b, q)) < 0x1_0000_0000
    ensures Bits.Or(LowHalf(Shl(b, q)), c) == c + LowHalf(Shl(b, q))
  {
    ShlHalves(b, q);
    SplitPowers(q);
    ProductBelow(Pow(2, q), Pow(2, 32 - q), b % Pow(2, 32 - q), c);
    MultipleOf(Pow(2, q), b % Pow(2, 32 - q));
    Bits.OrIsSum(c, LowHalf(Shl(b, q)), q);
  }

  // ---- left shift ---------------------------------------------------------------------------

  /** What the ShiftLeft loop keeps: the limbs above the write position are clear, the one at it
      holds only the carried bits, and the buffer is the processed part, shifted. */
  ghost predicate LeftState(nb: seq<Word>, buffer: seq<Word>, i: nat, z: nat, q: nat)
    requires i <= |buffer|
  {
    && |buffer| + z <= |nb|
    && WordAt(nb, i + z) == (if i == 0 then 0 else HighHalf(Shl(buffer[i - 1], q)))
    && (forall k :: i + z < k < |nb| ==> nb[k] == 0)
    && (i > 0 ==> nb[i - 1 + z] >= LowHalf(Shl(buffer[i - 1], q)))
    && Value(nb) == Shl(Low(0x1_0000_0000, buffer, i), q) * Pow(0x1_0000_0000, z)
  }

  lemma Distribute(a: nat, b: nat, p: nat)
    ensures (a + b) * p == a * p + b * p
  {
  }

  /** Storing both halves of one shifted limb adds that limb at its place. */
  lemma AddLimb(nb: seq<Word>, mid: seq<Word>, next: seq<Word>, j: nat, lsd: Word, msd: Word)
    requires j < |nb| && nb[j] + lsd < 0x1_0000_0000 && mid == nb[j := nb[j] + lsd]
    requires if msd > 0 then j + 1 < |nb| && nb[j + 1] == 0 && next == mid[j + 1 := msd] else next == mid
    ensures Value(next) == Value(nb) + (lsd + 0x1_0000_0000 * msd) * Pow(0x1_0000_0000, j)
  {
    ValUpdate(0x1_0000_0000, nb, j, nb[j] + lsd);
    Distribute(nb[j], lsd, Pow(0x1_0000_0000, j));
    Distribute(lsd, 0x1_0000_0000 * msd, Pow(0x1_0000_0000, j));
    if msd > 0 {
      ValUpdate(0x1_0000_0000, mid, j + 1, msd);
      assert (0x1_0000_0000 * msd) * Pow(0x1_0000_0000, j) == msd * (0x1_0000_0000 * Pow(0x1_0000_0000, j));
    }
  }

  lemma LeftSum(l: nat, b: nat, p: nat, s: nat, z: nat)
    ensures (l * s) * z + (b * s) * (z * p) == ((l + b * p) * s) * z
  {
    assert (b * s) * (z * p) == ((b * p) * s) * z;
    assert ((l + b * p) * s) * z == (l * s) * z + ((b * p) * s) * z;
  }

  lemma LeftValue(buffer: seq<Word>, i: nat, z: nat, q: nat)
    requires i < |buffer|
    ensures Shl(Low(0x1_0000_0000, buffer, i), q) * Pow(0x1_0000_0000, z) + Shl(buffer[i], q) * Pow(0x1_0000_0000, i + z)
         == Shl(Low(0x1_0000_0000, buffer, i + 1), q) * Pow(0x1_0000_0000, z)
  {
    PowAdd(0x1_0000_0000, z, i);
    LeftSum(Low(0x1_0000_0000, buffer, i), buffer[i], Pow(0x1_0000_0000, i), Pow(2, q), Pow(0x1_0000_0000, z));
  }

  lemma LeftStart(buffer: seq<Word>, nb: seq<Word>, z: nat, q: nat)
    requires |buffer| + z <= |nb| && forall k :: 0 <= k < |nb| ==> nb[k] == 0
    ensures LeftState(nb, buffer, 0, z, q)
  {
    LowZeros(0x1_0000_0000, nb, |nb|);
    assert Shl(0, q) * Pow(0x1_0000_0000, z) == 0;
  }

  lemma LeftEnd(buffer: seq<Word>, nb: seq<Word>, shift: nat)
    requires LeftState(nb, buffer, |buffer|, shift / 32, shift % 32)
    ensures Value(nb) == Shl(Value(buffer), shift)
  {
    hide Pow, Low;
    LimbShift(shift);
    Reorder(Value(buffer), Pow(2, shift % 32), Pow(0x1_0000_0000, shift / 32));
  }

  lemma Reorder(v: nat, s: nat, z: nat)
    ensures (v * s) * z == v * (z * s)
  {
  }

  lemma ShlZero(b: nat, q: nat)
    ensures Shl(b, q) == 0 <==> b == 0
  {
    Bits.Times(Pow(2, q), b);
  }

  method ShiftLeft(buffer: seq<Word>, shiftBitCount: nat) returns (newBuffer: seq<Word>)
    ensures Value(newBuffer) == Shl(Value(buffer), shiftBitCount)
    ensures buffer == [] ==> newBuffer == []
    ensures buffer != [] ==>
      |newBuffer| == |buffer| + shiftBitCount / 32
                     + (if Shl(buffer[|buffer| - 1], shiftBitCount % 32) >= 0x1_0000_0000 then 1 else 0)
    ensures Trimmed(buffer) ==> Trimmed(newBuffer)
  {
    hide Shl, Pow, Bits.Or;
    var length := |buffer|;
    if length == 0 {
      assert Shl(0, shiftBitCount) == 0 by { ShlZero(0, shiftBitCount); }
      return [];
    }
    var amountOfZeros := shiftBitCount / 32;
    var quickShiftAmount := shiftBitCount % 32;
    var msd := Shl(buffer[length - 1], quickShiftAmount);
    var extraDigit := if msd != LowHalf(msd) then 1 else 0;
    newBuffer := ZeroLimbs(length + amountOfZeros + extraDigit);
    LeftStart(buffer, newBuffer, amountOfZeros, quickShiftAmount);
    var i := 0;
    while i < length
      invariant 0 <= i <= length && |newBuffer| == length + amountOfZeros + extraDigit
      invariant LeftState(newBuffer, buffer, i, amountOfZeros, quickShiftAmount)
    {
      newBuffer := ShiftLeftBody(newBuffer, buffer, i, amountOfZeros, quickShiftAmount);
      i := i + 1;
    }
    LeftEnd(buffer, newBuffer, shiftBitCount);
    ShlZero(buffer[length - 1], quickShiftAmount);
  }

  /** The body of the ShiftLeft loop: one limb, split over two places. */
  method ShiftLeftBody(start: seq<Word>, buffer: seq<Word>, i: nat, amountOfZeros: nat, quickShiftAmount: nat)
    returns (newBuffer: seq<Word>)
    requires i < |buffer| && quickShiftAmount < 32
    requires LeftState(start, buffer, i, amountOfZeros, quickShiftAmount)
    requires HighHalf(Shl(buffer[i], quickShiftAmount)) > 0 ==> i + amountOfZeros + 1 < |start|
    ensures |newBuffer| == |start| && LeftState(newBuffer, buffer, i + 1, amountOfZeros, quickShiftAmount)
  {
    hide Shl, Pow, Bits.Or;
    var j := i + amountOfZeros;
    var shiftedVal := Shl(buffer[i], quickShiftAmount);
    var shiftLsd := LowHalf(shiftedVal);
    var shiftMsd := HighHalf(shiftedVal);
    ShlHalves(buffer[i], quickShiftAmount);
    if i > 0 { ShlHalves(buffer[i - 1], quickShiftAmount); }
    OrShifted(start[j], buffer[i], quickShiftAmount);
    newBuffer := start[j := Bits.Or(start[j], shiftLsd)];
    ghost var mid := newBuffer;
    if shiftMsd > 0 {
      assert newBuffer[j + 1] == 0;
      OrZero(shiftMsd);
      newBuffer := newBuffer[j + 1 := Bits.Or(newBuffer[j + 1], shiftMsd)];
    }
    AddLimb(start, mid, newBuffer, j, shiftLsd, shiftMsd);
    LeftValue(buffer, i, amountOfZeros, quickShiftAmount);
  }

  lemma OrZero(x: nat)
    ensures Bits.Or(0, x) == x
  {
  }

  // ---- right shift --------------------------------------------------------------------------

  /** One limb of a number shifted right by q < 32: its own high bits, and above them the bits
      that fall out of the limb on top. */
  function RightLimb(u: seq<Word>, k: nat, q: nat): nat
    requires q <= 32
  {
    Shr(WordAt(u, k), q) + UpperPart(u, k, q)
  }

  function UpperPart(u: seq<Word>, k: nat, q: nat): Word
    requires q <= 32
  {
    LowHalf(Shl(WordAt(u, k + 1), 32 - q))
  }

  lemma RightDigit(u: seq<Word>, k: nat, q: nat)
    requires q <= 32
    ensures Pow(2, q) * RightLimb(u, k, q)
         == WordAt(u, k) - WordAt(u, k) % Pow(2, q) + 0x1_0000_0000 * (WordAt(u, k + 1) % Pow(2, q))
  {
    hide Pow, Shl, LowHalf;
    SplitPowers(q);
    ShlHalves(WordAt(u, k + 1), 32 - q);
    RightDigitNumbers(WordAt(u, k), WordAt(u, k + 1) % Pow(2, q), Pow(2, q), Pow(2, 32 - q));
  }

  lemma RightDigitNumbers(a: nat, d: nat, s: nat, t: nat)
    requires s > 0 && s * t == 0x1_0000_0000
    ensures s * (a / s + t * d) == a - a % s + 0x1_0000_0000 * d
  {
    assert s * (a / s) == a - a % s;
    assert s * (t * d) == (s * t) * d;
    assert s * (a / s + t * d) == s * (a / s) + s * (t * d);
  }

  lemma RightStep(s: nat, r: nat, p: nat, l: nat, lu: int, a: nat, c: nat, d: nat)
    requires s * r == a - c + 0x1_0000_0000 * d
    requires s * l == lu + c * p
    ensures s * (l + r * p) == lu + a * p + d * (0x1_0000_0000 * p)
  {
    assert s * (l + r * p) == s * l + (s * r) * p;
    assert (a - c + 0x1_0000_0000 * d) * p == a * p - c * p + d * (0x1_0000_0000 * p);
  }

  /** Limbs of that shape write the quotient by 2^q. */
  lemma {:induction false} RightValue(u: seq<Word>, r: seq<Word>, n: nat, q: nat)
    requires q <= 32 && n <= |r|
    requires forall k: nat :: k < n ==> r[k] == RightLimb(u, k, q)
    ensures Pow(2, q) * Low(0x1_0000_0000, r, n)
         == Low(0x1_0000_0000, u, n) - WordAt(u, 0) % Pow(2, q) + (WordAt(u, n) % Pow(2, q)) * Pow(0x1_0000_0000, n)
  {
    hide RightLimb;
    if n > 0 {
      RightValue(u, r, n - 1, q);
      RightDigit(u, n - 1, q);
      RightStep(Pow(2, q), r[n - 1], Pow(0x1_0000_0000, n - 1), Low(0x1_0000_0000, r, n - 1),
                Low(0x1_0000_0000, u, n - 1) - WordAt(u, 0) % Pow(2, q),
                WordAt(u, n - 1), WordAt(u, n - 1) % Pow(2, q), WordAt(u, n) % Pow(2, q));
    }
  }

  lemma RightWholeTop(s: nat, v: nat, l: nat, m: nat, y: nat, p: nat)
    requires s > 0 && y < s && s * v == l - m + (y % s) * p
    ensures s * v + m == l + y * p
  {
    Bits.DivModIs(y, s, 0, y);
  }

  /** The result may leave out the top limb when that limb shifts to zero. */
  lemma RightWhole(u: seq<Word>, r: seq<Word>, q: nat)
    requires q <= 32 && |u| > 0
    requires |r| == |u| || (|r| == |u| - 1 && u[|u| - 1] < Pow(2, q))
    requires forall k: nat :: k < |r| ==> r[k] == RightLimb(u, k, q)
    ensures Pow(2, q) * Value(r) + WordAt(u, 0) % Pow(2, q) == Value(u)
  {
    hide RightLimb, Pow;
    RightValue(u, r, |r|, q);
    RightWholeTop(Pow(2, q), Value(r), Low(0x1_0000_0000, u, |r|), WordAt(u, 0) % Pow(2, q),
                  WordAt(u, |r|), Pow(0x1_0000_0000, |r|));
  }

  /** Dropping whole limbs, then dividing by s, is one division. */
  lemma DivTwice(v: nat, low: nat, high: nat, p: nat, s: nat, q: nat, r: nat)
    requires v == low + p * high && low < p && s > 0 && r < s && high == s * q + r
    ensures p * s > 0 && v / (p * s) == q
  {
    assert p * high == (p * s) * q + p * r by { assert p * (s * q + r) == (p * s) * q + p * r; }
    ProductBelow(p, s, r, low);
    assert (p * s) * q == q * (p * s);
    Bits.DivModIs(v, p * s, q, low + p * r);
  }

  lemma RightResult(buffer: seq<Word>, r: seq<Word>, shift: nat)
    requires shift / 32 < |buffer| && |buffer| - shift / 32 - 1 <= |r| <= |buffer| - shift / 32
    requires |r| < |buffer| - shift / 32 ==> buffer[|buffer| - 1] < Pow(2, shift % 32)
    requires forall k: nat :: k < |r| ==> r[k] == RightLimb(buffer[shift / 32..], k, shift % 32)
    ensures Value(r) == Shr(Value(buffer), shift)
  {
    hide RightLimb, Pow, Low;
    var z := shift / 32;
    var u := buffer[z..];
    RightWhole(u, r, shift % 32);
    ValSplit(0x1_0000_0000, buffer, z);
    LowBound(0x1_0000_0000, buffer, z);
    LimbShift(shift);
    DivTwice(Value(buffer), Low(0x1_0000_0000, buffer, z), Value(u), Pow(0x1_0000_0000, z), Pow(2, shift % 32),
             Value(r), WordAt(u, 0) % Pow(2, shift % 32));
  }

  lemma RightEmpty(buffer: seq<Word>, shift: nat)
    requires |buffer| > 0
    requires |buffer| <= shift / 32 || (|buffer| == shift / 32 + 1 && buffer[|buffer| - 1] < Pow(2, shift % 32))
    ensures Shr(Value(buffer), shift) == 0
  {
    hide Pow;
    LimbShift(shift);
    var p, s := Pow(0x1_0000_0000, shift / 32), Pow(2, shift % 32);
    if |buffer| <= shift / 32 {
      ValBound(0x1_0000_0000, buffer);
      PowMono(0x1_0000_0000, |buffer|, shift / 32);
      Bits.Times(s, p);
      assert s * p == p * s;
    } else {
      LowBound(0x1_0000_0000, buffer, |buffer| - 1);
      var d := buffer[|buffer| - 1];
      ProductBelow(p, s, d, Low(0x1_0000_0000, buffer, |buffer| - 1));
      assert d * p == p * d;
    }
    Bits.DivModIs(Value(buffer), p * s, 0, Value(buffer));
  }

  lemma ShrFacts(a: Word, q: nat)
    requires q <= 32
    ensures 0 <= Shr(a, q) < 0x1_0000_0000 && Shr(a, q) < Pow(2, 32 - q)
    ensures Shr(a, q) == 0 <==> a < Pow(2, q)
    ensures Shr(a, q) == HighHalf(Shl(a, 32 - q))
  {
    ShlHalves(a, 32 - q);
    if a < Pow(2, q) {
      Bits.DivModIs(a, Pow(2, q), 0, a);
    }
  }

  /** ORing a limb's high bits under the bits that came from the limb above adds them. */
  lemma OrUnder(u: seq<Word>, k: nat, q: nat)
    requires q <= 32
    ensures Bits.Or(UpperPart(u, k, q), Shr(WordAt(u, k), q)) == RightLimb(u, k, q) < 0x1_0000_0000
  {
    ShrFacts(WordAt(u, k), q);
    OrShifted(Shr(WordAt(u, k), q), WordAt(u, k + 1), 32 - q);
  }

  /** What the ShiftRight loop keeps: limbs above j are final, limb j has its top part only. */
  ghost predicate RightState(nb: seq<Word>, u: seq<Word>, j: nat, q: nat)
    requires q <= 32
  {
    && j < |nb|
    && (forall k: nat :: j < k < |nb| ==> nb[k] == RightLimb(u, k, q))
    && nb[j] == UpperPart(u, j, q)
    && (forall k: nat :: k < j ==> nb[k] == 0)
  }

  lemma UpperNothing(u: seq<Word>, k: nat, q: nat)
    requires q <= 32 && |u| <= k + 1
    ensures UpperPart(u, k, q) == 0
  {
    ShlZero(0, 32 - q);
  }

  method ShiftRight(buffer: seq<Word>, shiftBitCount: nat) returns (newBuffer: seq<Word>)
    ensures Value(newBuffer) == Shr(Value(buffer), shiftBitCount)
    ensures |newBuffer| <= |buffer|
  {
    hide RightLimb, UpperPart, Shl, Shr, Pow, Bits.Or;
    var length := |buffer|;
    if length == 0 {
      assert Shr(0, shiftBitCount) == 0 by { Bits.DivModIs(0, Pow(2, shiftBitCount), 0, 0); ShrIs(0, shiftBitCount); }
      return [];
    }
    var shrinkage := shiftBitCount / 32;
    var quickShiftAmount := shiftBitCount % 32;
    var msd := Shr(buffer[length - 1], quickShiftAmount);
    var extraShrinkage := if msd == 0 then 1 else 0;
    var newLength := length - shrinkage - extraShrinkage;
    ShrFacts(buffer[length - 1], quickShiftAmount);
    if newLength <= 0 {
      RightEmpty(buffer, shiftBitCount);
      return [];
    }
    newBuffer := ZeroLimbs(newLength);
    ghost var u := buffer[shrinkage..];
    if extraShrinkage == 1 {
      UpperPartIs(u, newLength - 1, quickShiftAmount);
      newBuffer := newBuffer[newLength - 1 := LowHalf(Shl(buffer[length - 1], 32 - quickShiftAmount))];
    } else {
      UpperNothing(u, newLength - 1, quickShiftAmount);
    }
    var i, j := length - (1 + extraShrinkage), newLength - 1;
    while j >= 1
      invariant 0 <= j && i == j + shrinkage < length && |newBuffer| == newLength
      invariant RightState(newBuffer, u, j, quickShiftAmount)
      decreases j
    {
      newBuffer := ShiftRightBody(newBuffer, buffer, u, i, j, quickShiftAmount);
      i, j := i - 1, j - 1;
    }
    OrUnder(u, 0, quickShiftAmount);
    ShrFacts(buffer[shrinkage], shiftBitCount % 32);
    newBuffer := newBuffer[0 := Bits.Or(newBuffer[0], Shr(buffer[shrinkage], shiftBitCount % 32))];
    RightResult(buffer, newBuffer, shiftBitCount);
  }

  lemma ShlIs(b: nat, q: nat)
    ensures Shl(b, q) == b * Pow(2, q)
  {
  }

  lemma ShrIs(b: nat, q: nat)
    ensures Shr(b, q) == b / Pow(2, q)
  {
  }

  lemma UpperPartIs(u: seq<Word>, k: nat, q: nat)
    requires q <= 32 && k + 1 < |u|
    ensures UpperPart(u, k, q) == LowHalf(Shl(u[k + 1], 32 - q))
  {
  }

  /** The body of the ShiftRight loop: one limb, split over two places. */
  method ShiftRightBody(start: seq<Word>, buffer: seq<Word>, ghost u: seq<Word>, i: nat, j: nat, q: nat)
    returns (newBuffer: seq<Word>)
    requires q < 32
    requires i < |buffer| && 1 <= j < |u| && u[j] == buffer[i] && RightState(start, u, j, q)
    ensures |newBuffer| == |start| && RightState(newBuffer, u, j - 1, q)
  {
    hide RightLimb, UpperPart, Shl, Shr, Pow, Bits.Or;
    OrUnder(u, j, q);
    UpperPartIs(u, j - 1, q);
    ShrFacts(buffer[i], q);
    var upshiftedVal := Shl(buffer[i], 32 - q);
    var shiftMsd := HighHalf(upshiftedVal);
    var shiftLsd := LowHalf(upshiftedVal);
    newBuffer := start[j := Bits.Or(start[j], shiftMsd)];
    OrZero(shiftLsd);
    newBuffer := newBuffer[j - 1 := Bits.Or(newBuffer[j - 1], shiftLsd)];
  }
}