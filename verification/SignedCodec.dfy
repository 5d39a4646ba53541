/** The signed byte codec (ToSignedByteArray and the two's-complement constructors) and the bitwise
    operators that run on it. */
module SignedCodec {
  import opened Positional
  import opened Limbs
  import opened BigIntegers
  import opened SignedBytes
  import Bits

  // ---- two's complement ---------------------------------------------------------------------

  function Invert(b: Byte): Byte {
    255 - b
  }

  function Inverted(bytes: seq<Byte>): (r: seq<Byte>)
    ensures |r| == |bytes| && forall i :: 0 <= i < |r| ==> r[i] == 255 - bytes[i]
  {
    seq(|bytes|, i requires 0 <= i < |bytes| => Invert(bytes[i]))
  }

  lemma {:induction false} InvertedLow(bytes: seq<Byte>, n: nat)
    requires n <= |bytes|
    ensures Low(256, Inverted(bytes), n) + Low(256, bytes, n) + 1 == Pow(256, n)
  {
    if n > 0 {
      InvertedLow(bytes, n - 1);
      var p := Pow(256, n - 1);
      var b: int := bytes[n - 1];
      assert (255 - b) * p + b * p == 255 * p;
    }
  }

  /** Padding with the byte that continues the sign changes nothing. */
  lemma SignExtension(bytes: seq<Byte>, pad: Byte)
    requires pad == 0 || pad == 255
    ensures TwosComplement(bytes + [pad]) == Unsigned(bytes) - (if pad == 255 then Pow(256, |bytes|) else 0)
    ensures bytes != [] && (pad == 255 <==> bytes[|bytes| - 1] >= 128) ==>
      TwosComplement(bytes + [pad]) == TwosComplement(bytes)
  {
    ValSnoc(256, bytes, pad);
    assert (bytes + [pad])[|bytes|] == pad;
  }

  /** Adds one with a rippling carry; a carry off the top becomes a new byte. */
  method Increment(bytes: seq<Byte>) returns (result: seq<Byte>)
    ensures Unsigned(result) == Unsigned(bytes) + 1
    ensures |result| == |bytes| + (if Unsigned(bytes) + 1 == Pow(256, |bytes|) then 1 else 0)
  {
    hide Pow;
    result := bytes;
    var carry: nat := 1;
    var i := 0;
    PowZeroTwo();
    while i < |result| && carry > 0
      invariant 0 <= i <= |result| == |bytes| && carry <= 1
      invariant Unsigned(result) + carry * Pow(256, i) == Unsigned(bytes) + 1
      decreases |result| - i
    {
      var sum := result[i] + carry;
      RippleStep(result, i, carry, sum);
      result := result[i := sum % 256];
      carry := sum / 256;
      i := i + 1;
    }
    ValBound(256, result);
    ValBound(256, bytes);
    if carry > 0 {
      ValSnoc(256, result, carry);
      result := result + [carry];
    }
  }

  lemma RippleStep(bytes: seq<Byte>, i: nat, carry: nat, sum: nat)
    requires i < |bytes| && carry <= 1 && sum == bytes[i] + carry
    ensures sum % 256 < 256 && sum / 256 <= 1
    ensures Unsigned(bytes[i := sum % 256]) + (sum / 256) * Pow(256, i + 1) == Unsigned(bytes) + carry * Pow(256, i)
  {
    ValUpdate(256, bytes, i, sum % 256);
    var p := Pow(256, i);
    assert (sum % 256 + 256 * (sum / 256)) * p == (bytes[i] + carry) * p;
    assert (sum % 256 + 256 * (sum / 256)) * p == (sum % 256) * p + (sum / 256) * (256 * p);
    assert (bytes[i] + carry) * p == bytes[i] * p + carry * p;
  }

  /** The exact length of the signed form, tail guards included. */
  function SignedLength(x: int): nat {
    var m := Magnitude(x);
    var n := ByteLength(m);
    if x == 0 then 1
    else if x > 0 then n + 1
    else if m > 128 * Pow(256, n - 1) then n + 2
    else if n == 1 then 3
    else if m == Pow(256, n - 1) then n + 1
    else n
  }

  /** Inverting a magnitude and adding one gives the low bytes of its negation; whether the sign
      bit comes out set, and whether the top byte is 255, depends on the magnitude. */
  lemma Negated(m: seq<Byte>, r: seq<Byte>)
    requires Trimmed(m) && m != [] && |r| == |m|
    requires Unsigned(r) == Unsigned(Inverted(m)) + 1
    ensures Unsigned(r) == Pow(256, |m|) - Unsigned(m)
    ensures r[|r| - 1] >= 128 <==> Unsigned(m) <= 128 * Pow(256, |m| - 1)
    ensures r[|r| - 1] == 255 <==> Unsigned(m) == Pow(256, |m| - 1)
  {
    hide Pow;
    var n := |m| - 1;
    InvertedLow(m, |m|);
    LowBound(256, r, n);
    ValLead(256, m);
    PowStep(n);
    TopByte(Low(256, r, n), r[n], Pow(256, n), Unsigned(m));
  }

  lemma PowStep(n: nat)
    ensures Pow(256, n + 1) == 256 * Pow(256, n) && Pow(256, n) > 0
  {
  }

  lemma TopByte(low: nat, top: nat, p: nat, m: nat)
    requires low < p && top < 256 && low + top * p == 256 * p - m && m >= p
    ensures top >= 128 <==> m <= 128 * p
    ensures top == 255 <==> m == p
  {
    if top >= 128 {
      Grow(128, top, p);
    } else {
      Grow(top, 127, p);
    }
    if top <= 254 {
      Grow(top, 254, p);
    }
  }

  lemma NoOverflow(m: seq<Byte>)
    requires Unsigned(m) > 0
    ensures Unsigned(Inverted(m)) + 1 < Pow(256, |m|)
  {
    InvertedLow(m, |m|);
  }

  /** ToSignedByteArray: the value in two's complement, with the historical tail guards. */
  method ToSignedByteArray(x: BigInteger) returns (result: seq<Byte>)
    requires x.Canonical()
    ensures TwosComplement(result) == x.Value()
    ensures |result| == SignedLength(x.Value())
  {
    hide Limbs.Value, Pow;
    if x.sign == 0 {
      ByteZero();
      return [0];
    }
    PositiveMagnitude(x);
    if x.sign > 0 {
      result := ToUnsignedByteArray(x);
      result := GuardPositive(result);
    } else {
      var tmp := BigInteger.Abs(x);
      result := ToUnsignedByteArray(tmp);
      result := GuardNegative(result);
    }
  }

  lemma ByteZero()
    ensures TwosComplement([0]) == 0
  {
    assert Low(256, [0], 1) == Low(256, [0], 0) + 0 * Pow(256, 0);
  }

  lemma PositiveMagnitude(x: BigInteger)
    requires x.Valid() && x.sign != 0
    ensures Value(x.data) > 0 && Magnitude(x.Value()) == Value(x.data)
  {
  }

  /** The positive path: one sign guard, then the trailing 0x00 if it is not there yet. */
  method GuardPositive(magnitude: seq<Byte>) returns (result: seq<Byte>)
    requires Trimmed(magnitude) && magnitude != []
    ensures result == magnitude + [0] && TwosComplement(result) == Unsigned(magnitude)
  {
    result := magnitude;
    if result[|result| - 1] >= 128 {
      result := result + [0];
    }
    if result[|result| - 1] != 0 {
      result := result + [0];
    }
    SignExtension(magnitude, 0);
  }

  /** The negative path: invert, add one, keep the sign bit set, then the trailing 0xFF guard. */
  method GuardNegative(magnitude: seq<Byte>) returns (result: seq<Byte>)
    requires Trimmed(magnitude) && magnitude != [] && Unsigned(magnitude) > 0
    requires |magnitude| == ByteLength(Unsigned(magnitude))
    ensures TwosComplement(result) == -(Unsigned(magnitude) as int)
    ensures |result| == SignedLength(-(Unsigned(magnitude) as int))
  {
    hide Pow, Low, Val;
    NoOverflow(magnitude);
    result := Increment(Inverted(magnitude));
    Negated(magnitude, result);
    ghost var low := result;
    SignExtension(low, 255);
    if result[|result| - 1] < 128 {
      result := result + [255];
    }
    SignExtension(result, 255);
    SignExtension(result + [255], 255);
    if |result| == 1 {
      result := result + [255];
      result := result + [255];
    } else if result[|result| - 1] == 255 {
      result := result + [255];
    }
  }

  // ---- where the trailing 0xFF is missing ---------------------------------------------------

  /** The top byte of a negative number is 255 exactly when one byte fewer would hold its magnitude. */
  lemma TopIsFF(b: seq<Byte>)
    requires TwosComplement(b) < 0
    ensures b[|b| - 1] == 255 <==> -TwosComplement(b) <= Pow(256, |b| - 1)
  {
    hide Pow;
    var k := |b| - 1;
    LowBound(256, b, k);
    PowStep(k);
    ValLead(256, b);
    if b[k] < 255 { Grow(b[k], 254, Pow(256, k)); }
  }

  lemma {:induction false} PowersGrow(a: nat, b: nat)
    requires a <= b
    ensures Pow(256, a) <= Pow(256, b)
  {
    if a < b {
      PowersGrow(a, b - 1);
      PowStep(b - 1);
    }
  }

  /** The signed form of a negative number ends in 0xFF, except where its magnitude lies strictly above
      the least number of its length and no higher than half of that length's range. */
  lemma GuardMissing(b: seq<Byte>, x: int)
    requires x < 0 && TwosComplement(b) == x && |b| == SignedLength(x)
    ensures
      var n := ByteLength(-x);
      b[|b| - 1] != 255 <==> n >= 2 && Pow(256, n - 1) < -x <= 128 * Pow(256, n - 1)
  {
    hide Pow, Low, TwosComplement;
    TopIsFF(b);
    PowersGrow(ByteLength(-x), if |b| > ByteLength(-x) then |b| - 1 else ByteLength(-x));
  }

  /** -257 is such a number: it is written as FF FE. */
  lemma GuardMissingAt257(b: seq<Byte>)
    requires TwosComplement(b) == -257 && |b| == SignedLength(-257)
    ensures b == [0xFF, 0xFE]
  {
    assert Pow(256, 1) == 256 && Pow(256, 2) == 65536 by { PowStep(0); PowStep(1); }
    ByteLengthUnique(257, 2);
    assert Low(256, b, 1) == Low(256, b, 0) + b[0] * Pow(256, 0);
    assert Low(256, b, 2) == Low(256, b, 1) + b[1] * Pow(256, 1);
  }

  /** What the bytes of every number look like: one zero for zero, one zero byte above a positive number, and for a
      negative one either a top byte between 128 and 254 or two bytes FF above a byte below 128; below those two
      stands a byte of any value where there are three in all. */
  lemma SignedForm(b: seq<Byte>, x: int)
    requires TwosComplement(b) == x && |b| == SignedLength(x)
    ensures x == 0 ==> b == [0]
    ensures x > 0 ==> |b| >= 2 && b[|b| - 1] == 0 && b[|b| - 2] != 0
    ensures x < 0 && b[|b| - 1] != 255 ==> 128 <= b[|b| - 1]
    ensures x < 0 && b[|b| - 1] == 255 ==> |b| >= 3 && b[|b| - 2] == 255 && (b[|b| - 3] < 128 || |b| == 3)
  {
    hide Pow, Low, Val;
    var k := |b| - 1;
    TopDigit(b, k);
    if x > 0 {
      TopDigit(b[..k], k - 1);
      assert b[..k][k - 1] == b[k - 1];
    } else if x < 0 && b[k] == 255 {
      GuardMissing(b, x);
      GuardedForm(b, x);
    } else if x == 0 {
      PowStep(0);
      assert b == [b[0]];
    }
  }

  /** A byte string is its lower bytes and its top byte. */
  lemma TopDigit(b: seq<Byte>, k: nat)
    requires |b| == k + 1
    ensures Unsigned(b) == Unsigned(b[..k]) + b[k] * Pow(256, k) && Unsigned(b[..k]) < Pow(256, k) && Pow(256, k + 1) == 256 * Pow(256, k)
    ensures Unsigned(b) < Pow(256, k) ==> b[k] == 0
    ensures Unsigned(b) >= Pow(256, k) ==> b[k] != 0
    ensures Unsigned(b) + Pow(256, k) >= Pow(256, k + 1) ==> b[k] == 255
    ensures Unsigned(b) < 128 * Pow(256, k) ==> b[k] < 128
  {
    hide Pow, Low, Val;
    ValSnoc(256, b[..k], b[k]);
    assert b[..k] + [b[k]] == b;
    ValBound(256, b[..k]);
    PowStep(k);
    var p, d: nat := Pow(256, k), b[k];
    if d > 0 { Grow(1, d, p); }
    if d < 255 { Grow(d, 254, p); }
    if d >= 128 { Grow(128, d, p); }
  }

  lemma GuardedForm(b: seq<Byte>, x: int)
    requires x < 0 && TwosComplement(b) == x && |b| == SignedLength(x) && b[|b| - 1] == 255
    ensures |b| >= 3 && b[|b| - 2] == 255 && (b[|b| - 3] < 128 || |b| == 3)
  {
    GuardedSize(b, x);
    hide Pow, Low, Val, SignedLength, ByteLength;
    var k := |b| - 1;
    SecondByte(b, k, -x);
    if k > 2 { ThirdByte(b, k, -x); }
  }

  /** Where the guard is written, it is one byte more than the number needs. */
  lemma GuardedSize(b: seq<Byte>, x: int)
    requires x < 0 && TwosComplement(b) == x && |b| == SignedLength(x) && b[|b| - 1] == 255
    ensures |b| >= 3 && -x <= Pow(256, |b| - 2) && (|b| > 3 ==> -x > 128 * Pow(256, |b| - 3))
    ensures Unsigned(b) == Pow(256, |b|) + x
  {
    hide Pow, Low, Val;
    var n := ByteLength(-x);
    GuardMissing(b, x);
    PowStep(0);
    PowStep(n - 1);
    if |b| > 3 { PowStep(|b| - 3); }
  }

  lemma SecondByte(b: seq<Byte>, k: nat, m: nat)
    requires |b| == k + 1 >= 3 && b[k] == 255 && Unsigned(b) == Pow(256, k + 1) - m && m <= Pow(256, k - 1)
    ensures b[k - 1] == 255 && Unsigned(b[..k - 1]) == Pow(256, k - 1) - m
  {
    hide Pow, Low, Val;
    TopDigit(b, k);
    var c := b[..k];
    TopDigit(c, k - 1);
    assert c[k - 1] == b[k - 1] && c[..k - 1] == b[..k - 1];
  }

  lemma ThirdByte(b: seq<Byte>, k: nat, m: nat)
    requires |b| == k + 1 > 3 && Unsigned(b[..k - 1]) == Pow(256, k - 1) - m && m > 128 * Pow(256, k - 2)
    ensures b[k - 2] < 128
  {
    hide Pow, Low, Val;
    var d := b[..k - 1];
    TopDigit(d, k - 2);
    assert d[k - 2] == b[k - 2];
  }

  // ---- constructors from signed bytes -------------------------------------------------------

  /** ApplyTwosComplement: invert, read as a magnitude, add one, and back to bytes. */
  method ApplyTwosComplement(bytes: seq<Byte>) returns (buffer: seq<Byte>)
    ensures Unsigned(buffer) == Pow(256, |bytes|) - Unsigned(bytes)
  {
    hide Limbs.Value, Pow;
    InvertedLow(bytes, |bytes|);
    var magnitude := FromMagnitude(Inverted(bytes), 1);
    var one := new BigInteger.FromInt64(1);
    var tmp := magnitude.Plus(one);
    buffer := ToSignedByteArray(tmp);
    TopClear(buffer);
  }

  lemma TopClear(buffer: seq<Byte>)
    requires TwosComplement(buffer) > 0
    ensures TwosComplement(buffer) == Unsigned(buffer)
  {
    ValBound(256, buffer);
  }

  /** The constructor from a two's-complement byte vector, for every byte string. */
  method FromSignedBytes(bytes: seq<Byte>) returns (r: BigInteger)
    ensures fresh(r) && r.Canonical() && r.Value() == TwosComplement(bytes)
  {
    if bytes == [] {
      r := new BigInteger.FromInt64(0);
      return;
    }
    var msb := bytes[|bytes| - 1];
    if msb >= 128 {
      var magnitude := ApplyTwosComplement(bytes);
      r := FromMagnitude(magnitude, -1);
    } else {
      r := FromMagnitude(bytes, 1);
    }
  }

  /** Reading back what ToSignedByteArray wrote gives the number again. */
  method RoundTrip(x: BigInteger) returns (r: BigInteger)
    requires x.Canonical()
    ensures fresh(r) && r.Canonical() && r.Value() == x.Value()
  {
    var bytes := ToSignedByteArray(x);
    r := FromSignedBytes(bytes);
  }

  // ---- bitwise operators --------------------------------------------------------------------

  lemma BitLow(x: nat, y: int, k: nat, i: nat)
    requires x < Pow(2, k)
    ensures Bits.Bit(x + Pow(2, k) * y, i) == (if i < k then Bits.Bit(x, i) else Bits.Bit(y, i - k))
    decreases k
  {
    if k == 0 {
      assert Pow(2, 0) == 1;
    } else {
      var p := Pow(2, k - 1);
      assert x + 2 * p * y == x + 2 * (p * y);
      assert (x + Pow(2, k) * y) / 2 == x / 2 + p * y && (x + Pow(2, k) * y) % 2 == x % 2 by {
        HalfSum(x, p * y);
        assert Pow(2, k) * y == 2 * (p * y);
      }
      if i > 0 { BitLow(x / 2, y, k - 1, i - 1); }
    }
  }

  lemma HalfSum(x: int, z: int)
    ensures (x + 2 * z) / 2 == x / 2 + z && (x + 2 * z) % 2 == x % 2
  {
  }

  lemma {:induction false} SignBits(x: int, i: nat)
    requires -1 <= x <= 0
    ensures Bits.Bit(x, i) == (x == -1)
  {
    if i > 0 { SignBits(x / 2, i - 1); }
  }

  /** Bit i of the sign-extended byte string. */
  function ByteBit(bytes: seq<Byte>, i: nat): bool
    requires bytes != []
  {
    if i < 8 * |bytes| then Bits.Bit(bytes[i / 8], i % 8) else bytes[|bytes| - 1] >= 128
  }

  lemma TwosCons(bytes: seq<Byte>)
    requires |bytes| > 1
    ensures TwosComplement(bytes) == bytes[0] + 256 * TwosComplement(bytes[1..])
  {
    ValCons(256, bytes[0], bytes[1..]);
    assert bytes == [bytes[0]] + bytes[1..];
  }

  /** The bits of a two's-complement number are the bits of its bytes, sign-extended. */
  lemma {:induction false} BitsOfBytes(bytes: seq<Byte>, i: nat)
    requires bytes != []
    ensures Bits.Bit(TwosComplement(bytes), i) == ByteBit(bytes, i)
    decreases |bytes|
  {
    hide Pow;
    PowZeroTwo();
    if |bytes| == 1 {
      OneByte(bytes);
      var s := if bytes[0] >= 128 then -1 else 0;
      BitLow(bytes[0], s, 8, i);
      if i >= 8 { SignBits(s, i - 8); }
    } else {
      TwosCons(bytes);
      BitLow(bytes[0], TwosComplement(bytes[1..]), 8, i);
      if i >= 8 {
        BitsOfBytes(bytes[1..], i - 8);
      }
    }
  }

  lemma OneByte(bytes: seq<Byte>)
    requires |bytes| == 1
    ensures var b: int := bytes[0]; TwosComplement(bytes) == (if b >= 128 then b - 256 else b)
  {
    assert Low(256, bytes, 1) == Low(256, bytes, 0) + bytes[0] * Pow(256, 0);
    assert Pow(256, 1) == 256 * Pow(256, 0);
  }

  // The operators first bring both operands to a common length by sign extension.
  lemma PadBits(bytes: seq<Byte>, padded: seq<Byte>, i: nat)
    requires bytes != [] && |bytes| <= |padded|
    requires forall k :: 0 <= k < |padded| ==>
      padded[k] == (if k < |bytes| then bytes[k] else if bytes[|bytes| - 1] >= 128 then 255 else 0)
    ensures ByteBit(padded, i) == ByteBit(bytes, i)
  {
    if 8 * |bytes| <= i < 8 * |padded| {
      PadByteBits(i % 8);
    }
  }

  lemma PadByteBits(i: nat)
    requires i < 8
    ensures Bits.Bit(255, i) && !Bits.Bit(0, i)
  {
    Bits.ZeroBits(i);
    assert Bits.Bit(255, 0) && Bits.Bit(127, 0) && Bits.Bit(63, 0) && Bits.Bit(31, 0);
    if i >= 4 {
      assert Bits.Bit(255, i) == Bits.Bit(127, i - 1) == Bits.Bit(63, i - 2) == Bits.Bit(31, i - 3) == Bits.Bit(15, i - 4);
    }
  }

  method SignExtended(bytes: seq<Byte>, len: nat) returns (padded: seq<Byte>)
    requires bytes != [] && |bytes| <= len
    ensures |padded| == len
    ensures forall k :: 0 <= k < len ==>
      padded[k] == (if k < |bytes| then bytes[k] else if bytes[|bytes| - 1] >= 128 then 255 else 0)
  {
    var pad := if bytes[|bytes| - 1] >= 128 then 255 else 0;
    padded := bytes;
    while |padded| < len
      invariant |bytes| <= |padded| <= len
      invariant forall k :: 0 <= k < |padded| ==>
        padded[k] == (if k < |bytes| then bytes[k] else if bytes[|bytes| - 1] >= 128 then 255 else 0)
    {
      padded := padded + [pad];
    }
  }

  /** PrepareBitwiseOperands: both signed forms, equally long, saying the same bits for ever. */
  method PrepareBitwiseOperands(a: BigInteger, b: BigInteger) returns (aBytes: seq<Byte>, bBytes: seq<Byte>)
    requires a.Canonical() && b.Canonical()
    ensures |aBytes| == |bBytes| > 0
    ensures forall i: nat :: ByteBit(aBytes, i) == Bits.Bit(a.Value(), i)
    ensures forall i: nat :: ByteBit(bBytes, i) == Bits.Bit(b.Value(), i)
  {
    hide TwosComplement;
    var aRaw := ToSignedByteArray(a);
    var bRaw := ToSignedByteArray(b);
    SignedLengthPositive(a.Value());
    SignedLengthPositive(b.Value());
    var len := if |aRaw| < |bRaw| then |bRaw| else |aRaw|;
    aBytes := SignExtended(aRaw, len);
    bBytes := SignExtended(bRaw, len);
    forall i: nat
      ensures ByteBit(aBytes, i) == Bits.Bit(a.Value(), i)
      ensures ByteBit(bBytes, i) == Bits.Bit(b.Value(), i)
    {
      BitsOfBytes(aRaw, i);
      BitsOfBytes(bRaw, i);
      PadBits(aRaw, aBytes, i);
      PadBits(bRaw, bBytes, i);
    }
  }

  lemma SignedLengthPositive(x: int)
    ensures SignedLength(x) > 0
  {
  }

  lemma TopBit(b: Byte)
    ensures Bits.Bit(b, 7) == (b >= 128)
  {
    var s := b / 2 / 2 / 2 / 2 / 2 / 2 / 2;
    assert Bits.Bit(b, 7) == Bits.Bit(b / 2, 6) == Bits.Bit(b / 2 / 2, 5) == Bits.Bit(b / 2 / 2 / 2, 4);
    assert Bits.Bit(b / 2 / 2 / 2, 4) == Bits.Bit(b / 2 / 2 / 2 / 2, 3) == Bits.Bit(b / 2 / 2 / 2 / 2 / 2, 2);
    assert Bits.Bit(b / 2 / 2 / 2 / 2 / 2, 2) == Bits.Bit(b / 2 / 2 / 2 / 2 / 2 / 2, 1) == Bits.Bit(s, 0);
  }

  datatype BitOp = AndOp | OrOp | XorOp

  function Apply(op: BitOp, x: Byte, y: Byte): Byte {
    ByteWidth(x, y);
    match op
    case AndOp => Bits.And(x, y)
    case OrOp => Bits.Or(x, y)
    case XorOp => Bits.Xor(x, y)
  }

  predicate OnBits(op: BitOp, x: bool, y: bool) {
    match op
    case AndOp => x && y
    case OrOp => x || y
    case XorOp => x != y
  }

  lemma ByteWidth(x: Byte, y: Byte)
    ensures Bits.And(x, y) < 256 && Bits.Or(x, y) < 256 && Bits.Xor(x, y) < 256
  {
    PowZeroTwo();
    Bits.Width(x, y, 8);
  }

  lemma ApplyBit(op: BitOp, x: Byte, y: Byte, i: nat)
    ensures Bits.Bit(Apply(op, x, y), i) == OnBits(op, Bits.Bit(x, i), Bits.Bit(y, i))
  {
    Bits.AndBit(x, y, i);
    Bits.OrBit(x, y, i);
    Bits.XorBit(x, y, i);
  }

  lemma ApplyBytes(op: BitOp, a: seq<Byte>, b: seq<Byte>, r: seq<Byte>, i: nat)
    requires |a| == |b| == |r| > 0 && forall k :: 0 <= k < |r| ==> r[k] == Apply(op, a[k], b[k])
    ensures ByteBit(r, i) == OnBits(op, ByteBit(a, i), ByteBit(b, i))
  {
    hide Apply, OnBits;
    if i < 8 * |r| {
      ApplyBit(op, a[i / 8], b[i / 8], i % 8);
    } else {
      var n := |r| - 1;
      ApplyBit(op, a[n], b[n], 7);
      TopBit(a[n]);
      TopBit(b[n]);
      TopBit(r[n]);
    }
  }

  /** operator&, operator| and operator^: the operation on infinite two's-complement bits. */
  method Bitwise(op: BitOp, a: BigInteger, b: BigInteger) returns (r: BigInteger)
    requires a.Canonical() && b.Canonical()
    ensures fresh(r) && r.Canonical()
    ensures forall i: nat :: Bits.Bit(r.Value(), i) == OnBits(op, Bits.Bit(a.Value(), i), Bits.Bit(b.Value(), i))
  {
    hide Apply, OnBits, ByteBit, TwosComplement;
    var aBytes, bBytes := PrepareBitwiseOperands(a, b);
    var result: seq<Byte> := seq(|aBytes|, _ => 0);
    var k := 0;
    while k < |result|
      invariant 0 <= k <= |result| == |aBytes|
      invariant forall n :: 0 <= n < k ==> result[n] == Apply(op, aBytes[n], bBytes[n])
    {
      result := result[k := Apply(op, aBytes[k], bBytes[k])];
      k := k + 1;
    }
    r := FromSignedBytes(result);
    forall i: nat
      ensures Bits.Bit(r.Value(), i) == OnBits(op, Bits.Bit(a.Value(), i), Bits.Bit(b.Value(), i))
    {
      ApplyBytes(op, aBytes, bBytes, result, i);
      BitsOfBytes(result, i);
    }
  }

  /** Infinite bits determine the number, so the contract of Bitwise leaves one result. */
  lemma {:induction false} BitsDetermine(x: int, y: int)
    requires forall i: nat :: Bits.Bit(x, i) == Bits.Bit(y, i)
    ensures x == y
    decreases Magnitude(x) + Magnitude(y)
  {
    assert Bits.Bit(x, 0) == Bits.Bit(y, 0);
    if !(-1 <= x <= 0 && -1 <= y <= 0) {
      forall i: nat
        ensures Bits.Bit(x / 2, i) == Bits.Bit(y / 2, i)
      {
        assert Bits.Bit(x, i + 1) == Bits.Bit(y, i + 1);
      }
      BitsDetermine(x / 2, y / 2);
    }
  }
}
