/** The sign-and-limb big integer: representation, construction, comparison and the ring
    operations.  Results are stated by value; the representation invariant says which vectors may
    carry that value.  */
module BigIntegers {
  import opened Positional
  import opened Limbs
  import Bits
  import Shifts

  /** The number behind a sign and a limb vector. */
  function Signed(sign: int, data: seq<Word>): int {
    var magnitude: int := Value(data);
    if sign < 0 then -magnitude else magnitude
  }

  class BigInteger {
    var sign: int
    var data: seq<Word>

    /** The sign tells zero from non-zero, and a non-zero vector has no leading zero limb.  Zero may
        be carried by any vector of zero limbs, the empty one included: quotients below one and
        shifted zeros are left in that state. */
    ghost predicate Valid()
      reads this
    {
      && sign in {-1, 0, 1}
      && (sign == 0 <==> Limbs.Value(data) == 0)
      && (sign != 0 ==> Trimmed(data))
    }

    /** What addition accepts: Valid, or a zero still carrying a negative sign (division passes one
        while it fixes up a remainder). */
    ghost predicate Addable()
      reads this
    {
      && sign in {-1, 0, 1}
      && (sign == 0 ==> Limbs.Value(data) == 0)
      && (sign == 1 ==> Limbs.Value(data) != 0)
      && (sign == -1 ==> data != [])
      && (Limbs.Value(data) != 0 ==> Trimmed(data))
    }

    /** Valid, and zero is the single limb 0: the state in which vectors can be compared. */
    ghost predicate Canonical()
      reads this
    {
      Valid() && (sign == 0 ==> data == [0])
    }

    ghost function Value(): int
      reads this
    {
      Signed(sign, data)
    }

    /** InitFromArray: drops leading zero limbs, and makes an all-zero vector the canonical zero. */
    constructor FromWords(words: seq<Word>, sign: int)
      requires sign == 1 || sign == -1
      ensures Canonical() && Value() == Signed(sign, words)
    {
      var n := |words|;
      var i := |words| - 1;
      while i >= 0
        invariant -1 <= i < |words| && n == i + 1
        invariant forall k :: n <= k < |words| ==> words[k] == 0
      {
        if words[i] == 0 {
          n := n - 1;
        } else {
          break;
        }
        i := i - 1;
      }
      KeepLow(words, n);
      if n <= 0 {
        this.data := [0];
        this.sign := 0;
        ValueOne(0);
      } else {
        this.data := words[..n];
        this.sign := sign;
        LeadingLimb(words[..n]);
      }
    }

    constructor FromInt64(val: int)
      requires -0x8000_0000_0000_0000 <= val < 0x8000_0000_0000_0000
      ensures Canonical() && Value() == val
    {
      if val == 0 {
        this.sign := 0;
        this.data := [0];
        ValueOne(0);
      } else {
        var magnitude := if val < 0 then -val else val;
        var words: seq<Word> := [magnitude % 0x1_0000_0000, magnitude / 0x1_0000_0000];
        ValueTwo(words);
        this.sign := if val < 0 then -1 else 1;
        this.data := if words[1] == 0 then words[..1] else words;
        LeadingLimb(words);
        ValueOne(words[0]);
        assert words[..1] == [words[0]];
        LeadingLimb(words[..1]);
      }
    }

    constructor Copy(other: BigInteger)
      ensures sign == other.sign && data == other.data
    {
      sign := other.sign;
      data := other.data;
    }

    /** Drops leading zero limbs in place and clears the sign of a zero. */
    method Trim()
      requires sign in {-1, 0, 1} && (sign == 0 ==> Limbs.Value(data) == 0)
      modifies this
      ensures Valid() && Value() == Signed(old(sign), old(data))
      ensures |data| <= |old(data)| && data == old(data)[..|data|]
      ensures old(data) != [] ==> Canonical()
    {
      while |data| > 1 && data[|data| - 1] == 0
        invariant |data| <= |old(data)| && data == old(data)[..|data|] && sign == old(sign)
        invariant Limbs.Value(data) == Limbs.Value(old(data))
        invariant old(data) != [] ==> data != []
        decreases |data|
      {
        KeepLow(data, |data| - 1);
        data := data[..|data| - 1];
      }
      if |data| == 0 || (|data| == 1 && data[0] == 0) {
        sign := 0;
      }
      LeadingLimb(data);
      if |data| == 1 {
        assert data == [data[0]];
        ValueOne(data[0]);
      }
    }

    /** Vector equality, which is value equality on canonical operands. */
    method Equals(b: BigInteger) returns (same: bool)
      ensures same <==> data == b.data && sign == b.sign
      ensures Canonical() && b.Canonical() ==> (same <==> Value() == b.Value())
    {
      same := |data| == |b.data| && sign == b.sign && data == b.data;
      if Canonical() && b.Canonical() && sign == b.sign && Value() == b.Value() && sign != 0 {
        TrimmedUnique(0x1_0000_0000, data, b.data);
      }
    }

    /** The unsigned copy. */
    static method Abs(x: BigInteger) returns (r: BigInteger)
      ensures fresh(r) && r.Canonical() && r.Value() == Limbs.Value(x.data) == (if x.Value() < 0 then -x.Value() else x.Value())
    {
      r := new BigInteger.FromWords(x.data, 1);
    }

    /** Three-way comparison folded into one flag: op is the answer for "less".  Two zeros of
        different lengths are ordered by length. */
    static method LogicalCompare(a: BigInteger, b: BigInteger, op: bool) returns (r: bool)
      requires a.Valid() && b.Valid()
      ensures a.Value() != b.Value() ==> r == (op == (a.Value() < b.Value()))
      ensures a.Value() == b.Value() != 0 ==> !r
      ensures a.Value() == b.Value() == 0 ==> r == (|a.data| != |b.data| && (op == (|a.data| < |b.data|)))
    {
      if a.sign < b.sign {
        return op;
      }
      if a.sign > b.sign {
        return !op;
      }
      var less := if a.sign < 0 then !op else op;
      if |a.data| < |b.data| {
        if a.sign != 0 { ShorterIsLess(0x1_0000_0000, a.data, b.data); }
        return less;
      }
      if |a.data| > |b.data| {
        if a.sign != 0 { ShorterIsLess(0x1_0000_0000, b.data, a.data); }
        return !less;
      }
      var i := |a.data| - 1;
      while i >= 0
        invariant -1 <= i < |a.data| && a.data[i + 1..] == b.data[i + 1..]
      {
        var x := a.data[i];
        var y := b.data[i];
        if x < y {
          TopDigitDecides(0x1_0000_0000, a.data, b.data, i);
          return less;
        }
        if x > y {
          TopDigitDecides(0x1_0000_0000, b.data, a.data, i);
          return !less;
        }
        assert a.data[i..] == [x] + a.data[i + 1..] && b.data[i..] == [y] + b.data[i + 1..];
        i := i - 1;
      }
      assert a.data == a.data[0..] == b.data[0..] == b.data;
      return false;
    }

    method Less(b: BigInteger) returns (r: bool)
      requires Valid() && b.Valid()
      ensures Value() != 0 || b.Value() != 0 || |data| == |b.data| ==> r == (Value() < b.Value())
      ensures Canonical() && b.Canonical() ==> r == (Value() < b.Value())
    {
      r := LogicalCompare(this, b, true);
    }

    method Greater(b: BigInteger) returns (r: bool)
      requires Valid() && b.Valid()
      ensures Value() != 0 || b.Value() != 0 || |data| == |b.data| ==> r == (Value() > b.Value())
      ensures Canonical() && b.Canonical() ==> r == (Value() > b.Value())
    {
      r := LogicalCompare(this, b, false);
    }

    method GreaterOrEqual(b: BigInteger) returns (r: bool)
      requires Canonical() && b.Canonical()
      ensures r == (Value() >= b.Value())
    {
      r := Equals(b);
      if !r {
        r := Greater(b);
      }
    }

    /** A magnitude with the given sign, zero keeping sign 0: how each branch of + and - ends. */
    static method WithSign(words: seq<Word>, sign: int) returns (result: BigInteger)
      requires sign == 1 || sign == -1
      ensures fresh(result) && result.Canonical() && result.Value() == Signed(sign, words)
    {
      result := new BigInteger.FromWords(words, 1);
      var zero := new BigInteger.FromInt64(0);
      var isZero := result.Equals(zero);
      result.sign := if isZero then 0 else sign;
    }

    method Plus(b: BigInteger) returns (result: BigInteger)
      requires Addable() && b.Addable()
      ensures fresh(result) && result.Canonical() && result.Value() == Value() + b.Value()
    {
      hide Limbs.Value;
      var words;
      if sign < 0 && b.sign < 0 {
        words := Add(data, b.data);
        result := new BigInteger.FromInt64(0);
        result.data := words;
        result.sign := -1;
      } else if sign < 0 {
        var magnitude := Abs(this);
        var less := magnitude.Less(b);
        if less {
          words := Subtract(b.data, data);
          result := WithSign(words, 1);
        } else {
          words := Subtract(data, b.data);
          result := WithSign(words, -1);
        }
      } else if b.sign < 0 {
        var magnitude := Abs(b);
        var less := Less(magnitude);
        if less {
          words := Subtract(b.data, data);
          result := WithSign(words, -1);
        } else {
          words := Subtract(data, b.data);
          result := WithSign(words, 1);
        }
      } else {
        words := Add(b.data, data);
        result := WithSign(words, 1);
      }
      result.Trim();
    }

    method Minus(b: BigInteger) returns (result: BigInteger)
      requires Valid() && b.Valid()
      ensures fresh(result) && result.Canonical() && result.Value() == Value() - b.Value()
    {
      hide Limbs.Value;
      var words;
      if sign < 0 && b.sign < 0 {
        var magnitude := Abs(this);
        var other := Abs(b);
        var less := magnitude.Less(other);
        if less {
          words := Subtract(b.data, data);
          result := WithSign(words, 1);
        } else {
          words := Subtract(data, b.data);
          result := WithSign(words, -1);
        }
      } else if sign < 0 {
        words := Add(data, b.data);
        result := WithSign(words, -1);
      } else if b.sign < 0 {
        words := Add(data, b.data);
        result := WithSign(words, 1);
      } else {
        var less := Less(b);
        if less {
          words := Subtract(b.data, data);
          result := WithSign(words, -1);
        } else {
          words := Subtract(data, b.data);
          result := WithSign(words, 1);
        }
      }
    }

    method Times(b: BigInteger) returns (result: BigInteger)
      requires Valid() && b.Valid()
      ensures fresh(result) && result.Valid() && result.Value() == Value() * b.Value()
      ensures data != [] && b.data != [] ==> result.Canonical()
    {
      hide Limbs.Value;
      var words := Multiply(data, b.data);
      result := new BigInteger.FromInt64(0);
      result.data := words;
      SignProduct(sign, b.sign, Limbs.Value(data), Limbs.Value(b.data));
      result.sign := sign * b.sign;
      result.Trim();
    }

    method Negate() returns (n: BigInteger)
      requires Valid()
      ensures fresh(n) && n.Valid() && n.Value() == -Value() && n.data == data
    {
      n := new BigInteger.Copy(this);
      n.sign := -n.sign;
    }

    /** Bits of the magnitude; zero has none. */
    method GetBitLength() returns (n: nat)
      requires |data| > 1 ==> Trimmed(data)
      ensures n == 0 <==> Limbs.Value(data) == 0
      ensures n > 0 ==> Pow(2, n - 1) <= Limbs.Value(data) < Pow(2, n)
    {
      if |data| == 0 || (|data| == 1 && data[0] == 0) {
        if |data| == 1 { assert data == [0]; ValueOne(0); }
        return 0;
      }
      var bits := WordBits(data[|data| - 1]);
      n := (|data| - 1) * 32 + bits;
      BitLengthIs(data, bits);
    }

    /** Gives a magnitude its final sign, a zero getting none. */
    method SettleSign(s: int)
      requires s in {-1, 0, 1} && (|data| > 1 ==> Trimmed(data))
      requires s == 0 ==> Limbs.Value(data) == 0
      modifies this`sign
      ensures Valid() && Value() == Signed(s, data)
      ensures sign == (if Limbs.Value(data) == 0 then 0 else s)
      ensures data != [] ==> Canonical()
    {
      var bits := GetBitLength();
      sign := if bits == 0 then 0 else s;
      LeadingLimb(data);
      if |data| == 1 {
        ValueOne(data[0]);
        assert data == [data[0]];
      }
    }

    /** operator<<: a negative count shifts right. */
    method ShiftedLeft(bits: int) returns (r: BigInteger)
      requires Valid()
      ensures fresh(r) && r.Valid()
      ensures bits >= 0 ==> r.Value() == Value() * Pow(2, bits)
      ensures bits < 0 ==> r.Value() == Value() / Pow(2, -bits)
      ensures Canonical() ==> (r.Canonical() <==> Value() != 0 || bits < 32)
      decreases if bits < 0 then 2 else 0, 0
    {
      if |data| == 0 {
        r := new BigInteger.Copy(this);
        ShiftZero(bits);
        return;
      }
      if bits < 0 {
        r := ShiftedRight(-bits);
        return;
      }
      r := new BigInteger.Copy(this);
      r.data := Shifts.ShiftLeft(r.data, bits);
      ShiftMagnitude(sign, data, bits);
      ShiftedLength(data, bits);
    }

    /** operator>>: rounds towards minus infinity; a negative count shifts left. */
    method ShiftedRight(bits: int) returns (r: BigInteger)
      requires Valid()
      ensures fresh(r) && r.Valid()
      ensures bits >= 0 ==> r.Value() == Value() / Pow(2, bits)
      ensures bits < 0 ==> r.Value() == Value() * Pow(2, -bits)
      ensures bits >= 0 && data != [] ==> r.Canonical()
      decreases 1, 0
    {
      hide Limbs.Value, Pow;
      if |data| == 0 {
        r := new BigInteger.Copy(this);
        ValueEmpty();
        ShiftZero(bits);
        return;
      }
      if bits < 0 {
        r := ShiftedLeft(-bits);
        return;
      }
      if sign < 0 {
        r := NegativeShift(bits);
        return;
      }
      r := new BigInteger.Copy(this);
      ShrSigned(data, bits);
      r.data := Shifts.ShiftRight(r.data, bits);
      ValueOne(0);
      ValueEmpty();
      if |r.data| != 0 && r.data[0] == 0 && |r.data| == 1 {
        assert r.data == [0];
        r.sign := 0;
      }
      r.Trim();
      if |r.data| == 0 {
        r.data := [0];
        r.sign := 0;
      }
    }

    /** The arithmetic shift both right-shift operators use for a negative number: shift
        |a| + (2^bits - 1) and restore the sign. */
    method NegativeShift(bits: nat) returns (temp: BigInteger)
      requires Valid() && sign < 0
      ensures fresh(temp) && temp.Canonical() && temp.Value() == Value() / Pow(2, bits)
      decreases 0, 1
    {
      hide Limbs.Value, Pow;
      var one := new BigInteger.FromInt64(1);
      var adjust := one.ShiftedLeft(bits);
      var minusOne := adjust.Minus(one);
      var magnitude := Abs(this);
      temp := magnitude.Plus(minusOne);
      temp.data := Shifts.ShiftRight(temp.data, bits);
      temp.NegativeResult();
      FloorOfNegative(Limbs.Value(data), Pow(2, bits));
      Shifts.ShrIs(Limbs.Value(data) + Pow(2, bits) - 1, bits);
    }

    /** Makes a shifted magnitude negative, unless it shifted to zero. */
    method NegativeResult()
      modifies this
      ensures Valid() && Value() == -(Limbs.Value(old(data)) as int)
      ensures old(data) != [] ==> Canonical()
      ensures old(data) == [] ==> data == []
    {
      ValueOne(0);
      if |data| != 0 && data[0] == 0 && |data| == 1 {
        assert data == [0];
        sign := 0;
      } else {
        sign := -1;
      }
      Trim();
    }

    /** operator<<=. */
    method ShiftLeftAssign(bits: int)
      requires Valid()
      modifies this
      ensures Valid()
      ensures bits >= 0 ==> Value() == old(Value()) * Pow(2, bits)
      ensures bits < 0 ==> Value() == old(Value()) / Pow(2, -bits)
      ensures bits >= 0 && old(data) != [] ==>
        |data| == |old(data)| + bits / 32
                  + (if Shifts.Shl(old(data)[|old(data)| - 1], bits % 32) >= 0x1_0000_0000 then 1 else 0)
      decreases if bits < 0 then 2 else 0, 0
    {
      if |data| == 0 {
        ShiftZero(bits);
        return;
      }
      if bits < 0 {
        ShiftRightAssign(-bits);
        return;
      }
      ShiftMagnitude(sign, data, bits);
      data := Shifts.ShiftLeft(data, bits);
    }

    /** operator>>=. */
    method ShiftRightAssign(bits: int)
      requires Valid()
      modifies this
      ensures Valid()
      ensures bits >= 0 ==> Value() == old(Value()) / Pow(2, bits)
      ensures bits < 0 ==> Value() == old(Value()) * Pow(2, -bits)
      ensures bits >= 0 && old(data) != [] ==> Canonical()
      decreases 1, 0
    {
      hide Limbs.Value, Pow;
      ValueOne(0);
      ValueEmpty();
      if |data| == 0 {
        ShiftZero(bits);
        return;
      }
      if bits < 0 {
        ShiftLeftAssign(-bits);
        return;
      }
      if sign < 0 {
        var temp := NegativeShift(bits);
        sign := temp.sign;
        data := temp.data;
        return;
      }
      ShrSigned(data, bits);
      data := Shifts.ShiftRight(data, bits);
      if |data| != 0 && data[0] == 0 && |data| == 1 {
        assert data == [0];
        sign := 0;
      }
      Trim();
      if |data| == 0 {
        data := [0];
        sign := 0;
      }
    }
  }

  // ---- facts about vectors ------------------------------------------------------------------

  lemma ValueTwo(words: seq<Word>)
    requires |words| == 2
    ensures Value(words) == words[0] + (0x1_0000_0000 as int) * words[1]
  {
    ValueOne(words[1]);
    ValCons(0x1_0000_0000, words[0], [words[1]]);
    assert words == [words[0]] + [words[1]];
  }

  lemma KeepLow(words: seq<Word>, n: nat)
    requires n <= |words| && forall k :: n <= k < |words| ==> words[k] == 0
    ensures Value(words[..n]) == Value(words) && (n == 0 ==> Value(words) == 0)
  {
    LowTop(0x1_0000_0000, words, n, |words|);
    LowIsPrefix(0x1_0000_0000, words, n);
  }

  lemma LeadingLimb(words: seq<Word>)
    ensures |words| > 0 && words[|words| - 1] != 0 ==> Value(words) > 0
  {
    if |words| > 0 && words[|words| - 1] != 0 {
      ValLead(0x1_0000_0000, words);
    }
  }

  lemma SignProduct(s: int, t: int, x: int, y: int)
    requires x >= 0 && y >= 0
    requires s in {-1, 0, 1} && t in {-1, 0, 1}
    requires (s == 0 <==> x == 0) && (t == 0 <==> y == 0)
    ensures s * t in {-1, 0, 1} && (s * t == 0 <==> x * y == 0)
    ensures (if s * t < 0 then -(x * y) else x * y) == (if s < 0 then -x else x) * (if t < 0 then -y else y)
  {
    if x > 0 && y > 0 { Bits.Times(x, y); }
    assert (-x) * y == -(x * y) && x * (-y) == -(x * y) && (-x) * (-y) == x * y;
  }


  lemma ValueEmpty()
    ensures Value([]) == 0
  {
  }

  /** Position of the highest set bit, counted from one. */
  function WordBits(w: nat): (n: nat)
    ensures w > 0 ==> n > 0 && Pow(2, n - 1) <= w
    ensures w < Pow(2, n)
  {
    if w == 0 then 0 else WordBits(w / 2) + 1
  }

  lemma BitLengthIs(data: seq<Word>, bits: nat)
    requires |data| > 0 && data[|data| - 1] != 0 && bits == WordBits(data[|data| - 1])
    ensures Pow(2, (|data| - 1) * 32 + bits - 1) <= Value(data) < Pow(2, (|data| - 1) * 32 + bits)
  {
    hide Pow;
    var n := |data| - 1;
    Pow32();
    PowPow(2, 32, n);
    PowAdd(2, n * 32, bits - 1);
    PowAdd(2, n * 32, bits);
    LowBound(0x1_0000_0000, data, n);
    TopWeighs(Pow(0x1_0000_0000, n), Low(0x1_0000_0000, data, n), data[n], Pow(2, bits - 1), Pow(2, bits));
  }

  lemma TopWeighs(p: nat, low: nat, top: nat, least: nat, bound: nat)
    requires low < p && least <= top < bound
    ensures p * least <= low + top * p < p * bound
  {
    Grow(least, top, p);
    OneMore(p, top, bound);
    assert least * p == p * least && bound * p == p * bound;
  }

  lemma ShiftZero(bits: int)
    ensures bits >= 0 ==> 0 * Pow(2, bits) == 0 && 0 / Pow(2, bits) == 0
    ensures bits < 0 ==> 0 / Pow(2, -bits) == 0 && 0 * Pow(2, -bits) == 0
  {
    if bits >= 0 {
      Bits.DivModIs(0, Pow(2, bits), 0, 0);
    } else {
      Bits.DivModIs(0, Pow(2, -bits), 0, 0);
    }
  }

  lemma ShiftMagnitude(sign: int, data: seq<Word>, bits: nat)
    ensures var v: int := Shifts.Shl(Value(data), bits);
      (if sign < 0 then -v else v) == Signed(sign, data) * Pow(2, bits)
    ensures Shifts.Shl(Value(data), bits) == 0 <==> Value(data) == 0
  {
    Shifts.ShlZero(Value(data), bits);
    var v: int := Value(data);
    assert (-v) * Pow(2, bits) == -(v * Pow(2, bits));
  }

  lemma ShiftedLength(data: seq<Word>, bits: nat)
    ensures data == [0] ==> Shifts.Shl(0, bits % 32) == 0
  {
    Shifts.ShlZero(0, bits % 32);
  }

  lemma ShrSigned(data: seq<Word>, bits: nat)
    ensures Shifts.Shr(Value(data), bits) == Value(data) / Pow(2, bits)
    ensures Value(data) == 0 ==> Shifts.Shr(Value(data), bits) == 0
  {
    ShiftZero(bits);
  }

  /** floor(-m / d) by rounding the magnitude up. */
  lemma FloorOfNegative(m: int, d: int)
    requires d > 0
    ensures (-m) / d == -((m + d - 1) / d)
    ensures m > 0 ==> (m + d - 1) / d > 0
  {
    var q, r := (m + d - 1) / d, (m + d - 1) % d;
    assert m + d - 1 == d * q + r;
    assert (-q) * d == -(d * q);
    Bits.DivModIs(-m, d, -q, d - 1 - r);
    if m > 0 && q <= 0 {
      Bits.Times(1 - q, d);
    }
  }
}
