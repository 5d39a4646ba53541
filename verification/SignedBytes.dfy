/** The byte side of the big integer: little-endian two's complement with Phantasma's tail guards,
    the byte constructors, and the bitwise operators built on them. */
module SignedBytes {
  import opened Positional
  import opened Limbs
  import opened BigIntegers
  import Bits
  import Shifts

  type Byte = x: nat | x < 256

  function Magnitude(x: int): nat {
    if x < 0 then -x else x
  }

  function Unsigned(bytes: seq<Byte>): nat {
    Val(256, bytes)
  }

  /** The two's-complement reading of a byte string. */
  function TwosComplement(bytes: seq<Byte>): int {
    if bytes == [] then 0
    else if bytes[|bytes| - 1] >= 128 then Unsigned(bytes) - Pow(256, |bytes|)
    else Unsigned(bytes)
  }

  // ---- bytes and limbs ----------------------------------------------------------------------

  /** The four bytes of a limb in memory. */
  function WordBytes(w: Word): (b: seq<Byte>)
    ensures |b| == 4
  {
    [w % 256, (w / 256) % 256, (w / 256 / 256) % 256, w / 256 / 256 / 256]
  }

  lemma WordBytesValue(w: Word)
    ensures Unsigned(WordBytes(w)) == w
  {
    var b := WordBytes(w);
    assert b == [b[0]] + ([b[1]] + ([b[2]] + ([b[3]] + [])));
    ValCons(256, b[3], []);
    ValCons(256, b[2], [b[3]] + []);
    ValCons(256, b[1], [b[2]] + ([b[3]] + []));
    ValCons(256, b[0], [b[1]] + ([b[2]] + ([b[3]] + [])));
  }

  function LimbBytes(data: seq<Word>): (b: seq<Byte>)
    ensures |b| == 4 * |data|
  {
    if data == [] then [] else LimbBytes(data[..|data| - 1]) + WordBytes(data[|data| - 1])
  }

  lemma {:induction false} Pow256(j: nat)
    ensures Pow(256, 4 * j) == Pow(0x1_0000_0000, j)
  {
    assert Pow(256, 2) == 0x1_0000;
    PowAdd(256, 2, 2);
    PowPow(256, 4, j);
  }

  lemma {:induction false} LimbBytesValue(data: seq<Word>)
    ensures Unsigned(LimbBytes(data)) == Value(data)
  {
    if data != [] {
      var n := |data| - 1;
      LimbBytesValue(data[..n]);
      ValConcat(256, LimbBytes(data[..n]), WordBytes(data[n]));
      WordBytesValue(data[n]);
      Pow256(n);
      LowIsPrefix(0x1_0000_0000, data, n);
      assert data[n] * Pow(0x1_0000_0000, n) == Pow(0x1_0000_0000, n) * data[n];
    }
  }

  lemma {:induction false} LimbBytesAt(data: seq<Word>, i: nat, k: nat)
    requires i < |data| && k < 4
    ensures LimbBytes(data)[4 * i + k] == WordBytes(data[i])[k]
  {
    if i < |data| - 1 {
      LimbBytesAt(data[..|data| - 1], i, k);
    }
  }

  /** Limbs that spell the same bytes (with zeros at the end) have the same value. */
  lemma BytesToLimbs(bytes: seq<Byte>, data: seq<Word>)
    requires |bytes| <= 4 * |data|
    requires forall n: nat :: n < 4 * |data| ==> LimbBytes(data)[n] == Digit(bytes, n)
    ensures Value(data) == Unsigned(bytes)
  {
    LimbBytesValue(data);
    LowSame(256, LimbBytes(data), bytes, 4 * |data|);
    LowPast(256, bytes, 4 * |data|);
  }

  /** Four bytes in memory read as one limb. */
  function Join(b0: nat, b1: nat, b2: nat, b3: nat): nat {
    b0 + 256 * (b1 + 256 * (b2 + 256 * b3))
  }

  lemma JoinIs(b0: Byte, b1: Byte, b2: Byte, b3: Byte)
    ensures Join(b0, b1, b2, b3) < 0x1_0000_0000 && WordBytes(Join(b0, b1, b2, b3)) == [b0, b1, b2, b3]
  {
    var w := Join(b0, b1, b2, b3);
    assert w / 256 == b1 + (256 as int) * (b2 + 256 * b3) && w % 256 == b0;
    assert w / 256 / 256 == b2 + (256 as int) * b3 && (w / 256) % 256 == b1;
  }

  function WordAtBytes(bytes: seq<Byte>, i: nat): Word
    requires 4 * i + 4 <= |bytes|
  {
    JoinIs(bytes[4 * i], bytes[4 * i + 1], bytes[4 * i + 2], bytes[4 * i + 3]);
    Join(bytes[4 * i], bytes[4 * i + 1], bytes[4 * i + 2], bytes[4 * i + 3])
  }

  method PackWhole(bytes: seq<Byte>) returns (words: seq<Word>)
    requires |bytes| % 4 == 0
    ensures Value(words) == Unsigned(bytes)
  {
    words := seq(|bytes| / 4, i requires 0 <= i < |bytes| / 4 => WordAtBytes(bytes, i));
    forall n: nat | n < 4 * |words|
      ensures LimbBytes(words)[n] == Digit(bytes, n)
    {
      var i, k := n / 4, n % 4;
      LimbBytesAt(words, i, k);
      JoinIs(bytes[4 * i], bytes[4 * i + 1], bytes[4 * i + 2], bytes[4 * i + 3]);
    }
    BytesToLimbs(bytes, words);
  }

  /** What the OR loop keeps: the bytes read so far, the open limb still below 256^position. */
  ghost predicate PackState(words: seq<Word>, bytes: seq<Byte>, i: nat)
    requires i <= |bytes|
  {
    && |words| == (|bytes| + 3) / 4
    && Value(words) == Low(256, bytes, i)
    && (forall k :: i / 4 < k < |words| ==> words[k] == 0)
    && (i / 4 < |words| ==> words[i / 4] < Pow(256, i % 4))
  }

  lemma PackStep(words: seq<Word>, bytes: seq<Byte>, i: nat)
    requires i < |bytes| && PackState(words, bytes, i)
    ensures Bits.Or(words[i / 4], Shifts.Shl(bytes[i], 8 * (i % 4))) < 0x1_0000_0000
    ensures PackState(words[i / 4 := Bits.Or(words[i / 4], Shifts.Shl(bytes[i], 8 * (i % 4)))], bytes, i + 1)
  {
    hide Pow, Bits.Or, Shifts.Shl;
    var j, pos := i / 4, i % 4;
    OrByte(words[j], bytes[i], pos);
    var w := words[j] + Shifts.Shl(bytes[i], 8 * pos);
    ValUpdate(0x1_0000_0000, words, j, w);
    Pow256(j);
    PowAdd(256, 4 * j, pos);
    assert 4 * j + pos == i;
    ByteWeight(words[j], bytes[i], Pow(0x1_0000_0000, j), Pow(256, pos), Pow(256, i));
    Shifts.ShlIs(bytes[i], 8 * pos);
    PowPow(2, 8, pos);
    PowZeroTwo();
  }

  lemma PowZeroTwo()
    ensures Pow(2, 8) == 256 && Pow(256, 0) == 1
  {
  }

  lemma ByteWeight(w: nat, b: nat, pj: nat, ps: nat, pi: nat)
    requires pi == pj * ps
    ensures (w + b * ps) * pj == w * pj + b * pi
  {
    assert (b * ps) * pj == b * (pj * ps);
  }

  /** ORing the next byte into its place in a limb adds it there. */
  lemma OrByte(w: Word, b: Byte, pos: nat)
    requires pos < 4 && w < Pow(256, pos)
    ensures Shifts.Shl(b, 8 * pos) == b * Pow(256, pos)
    ensures Bits.Or(w, Shifts.Shl(b, 8 * pos)) == w + Shifts.Shl(b, 8 * pos) < 0x1_0000_0000
    ensures pos < 3 ==> w + Shifts.Shl(b, 8 * pos) < Pow(256, pos + 1)
  {
    PowZeroTwo();
    PowPow(2, 8, pos);
    var p := Pow(256, pos);
    Shifts.ShlIs(b, 8 * pos);
    Bits.ModMultiple(b, p);
    Bits.OrIsSum(w, b * p, 8 * pos);
    OneMore(p, b, 256);
    assert 256 * p == Pow(256, pos + 1);
    PowMono(256, pos + 1, 4);
    assert Pow(256, 4) == 0x1_0000_0000 by { assert Pow(256, 2) == 0x1_0000; PowAdd(256, 2, 2); }
  }

  /** The byte constructors' loop for lengths that are no multiple of four. */
  method PackOr(bytes: seq<Byte>) returns (uintArray: seq<Word>)
    ensures Value(uintArray) == Unsigned(bytes)
  {
    hide Pow, Bits.Or, Shifts.Shl;
    uintArray := ZeroLimbs((|bytes| + 3) / 4);
    LowZeros(0x1_0000_0000, uintArray, |uintArray|);
    PowZeroTwo();
    var i, j := 0, -1;
    while i < |bytes|
      invariant 0 <= i <= |bytes| && j == (i + 3) / 4 - 1
      invariant PackState(uintArray, bytes, i)
    {
      var bytePosition := i % 4;
      if bytePosition == 0 {
        j := j + 1;
      }
      PackStep(uintArray, bytes, i);
      uintArray := uintArray[j := Bits.Or(uintArray[j], Shifts.Shl(bytes[i], 8 * bytePosition))];
      i := i + 1;
    }
  }

  /** The private constructor from magnitude bytes and a sign. */
  method FromMagnitude(bytes: seq<Byte>, sign: int) returns (r: BigInteger)
    requires sign == 1 || sign == -1
    ensures fresh(r) && r.Canonical()
    ensures r.Value() == (if sign < 0 then -(Unsigned(bytes) as int) else Unsigned(bytes))
  {
    var words;
    if bytes != [] && |bytes| % 4 == 0 {
      words := PackWhole(bytes);
    } else {
      words := PackOr(bytes);
    }
    r := new BigInteger.FromWords(words, sign);
  }

  // ---- magnitude bytes ----------------------------------------------------------------------

  /** Bytes in the magnitude, no leading zero byte. */
  function ByteLength(m: nat): (n: nat)
    ensures m < Pow(256, n)
    ensures m > 0 ==> n > 0 && Pow(256, n - 1) <= m
    ensures m == 0 ==> n == 0
  {
    if m == 0 then 0 else ByteLength(m / 256) + 1
  }

  lemma ByteLengthUnique(m: nat, n: nat)
    requires m < Pow(256, n) && (n > 0 ==> Pow(256, n - 1) <= m)
    ensures n == ByteLength(m)
  {
    if n < ByteLength(m) {
      PowMono(256, n, ByteLength(m) - 1);
    } else if ByteLength(m) < n {
      PowMono(256, ByteLength(m), n - 1);
    }
  }

  lemma BytesFromBits(m: nat, bits: nat, n: nat)
    requires n == bits / 8 + (if bits % 8 > 0 then 1 else 0)
    requires m < Pow(2, bits) && (bits > 0 ==> Pow(2, bits - 1) <= m) && (bits == 0 ==> m == 0)
    ensures n == ByteLength(m)
  {
    hide Pow;
    PowZeroTwo();
    PowPow(2, 8, n);
    PowMono(2, bits, 8 * n);
    if n > 0 {
      PowPow(2, 8, n - 1);
      PowMono(2, 8 * (n - 1), bits - 1);
    }
    ByteLengthUnique(m, n);
  }

  lemma HighBytesZero(data: seq<Word>, n: nat)
    requires Value(data) < Pow(256, n)
    ensures forall i :: n <= i < 4 * |data| ==> LimbBytes(data)[i] == 0
  {
    LimbBytesValue(data);
    HighDigitsZero(LimbBytes(data), n);
  }

  lemma {:induction false} HighDigitsZero(b: seq<Byte>, n: nat)
    requires Unsigned(b) < Pow(256, n)
    ensures forall i :: n <= i < |b| ==> b[i] == 0
  {
    forall i | n <= i < |b|
      ensures b[i] == 0
    {
      if b[i] != 0 {
        LowMono(256, b, i + 1, |b|);
        Bits.Times(b[i], Pow(256, i));
        PowMono(256, n, i);
      }
    }
  }

  /** ToUnsignedByteArray: the magnitude's bytes, without leading zero bytes. */
  method ToUnsignedByteArray(x: BigInteger) returns (result: seq<Byte>)
    requires x.Canonical()
    ensures Unsigned(result) == Value(x.data) && |result| == ByteLength(Value(x.data))
    ensures Trimmed(result)
  {
    hide Pow;
    var bitLength := x.GetBitLength();
    var byteArraySize := bitLength / 8 + (if bitLength % 8 > 0 then 1 else 0);
    BytesFromBits(Value(x.data), bitLength, byteArraySize);
    HighBytesZero(x.data, byteArraySize);
    BytesFit(x.data);
    result := seq(byteArraySize, _ => 0);
    var i, j := 0, 0;
    while i < |x.data|
      invariant 0 <= i <= |x.data| && j == 4 * i && |result| == byteArraySize
      invariant forall n :: 0 <= n < byteArraySize ==>
        result[n] == (if n < 4 * i then LimbBytes(x.data)[n] else 0)
    {
      result := CopyLimb(result, x.data, i);
      i, j := i + 1, j + 4;
    }
    SameBytes(result, x.data);
    TrimmedBytes(result);
  }

  /** Copies the non-zero bytes of one limb to their places. */
  method CopyLimb(start: seq<Byte>, data: seq<Word>, i: nat) returns (result: seq<Byte>)
    requires i < |data|
    requires forall n :: |start| <= n < 4 * |data| ==> LimbBytes(data)[n] == 0
    requires forall n :: 0 <= n < |start| ==> n < 4 * |data| && start[n] == (if n < 4 * i then LimbBytes(data)[n] else 0)
    ensures |result| == |start|
    ensures forall n :: 0 <= n < |result| ==> result[n] == (if n < 4 * i + 4 then LimbBytes(data)[n] else 0)
  {
    var bytes := WordBytes(data[i]);
    result := start;
    var k := 0;
    while k < 4
      invariant 0 <= k <= 4 && |result| == |start|
      invariant forall n :: 0 <= n < |result| ==> result[n] == (if n < 4 * i + k then LimbBytes(data)[n] else 0)
    {
      LimbBytesAt(data, i, k);
      if bytes[k] != 0 {
        result := result[4 * i + k := bytes[k]];
      }
      k := k + 1;
    }
  }

  lemma BytesFit(data: seq<Word>)
    ensures ByteLength(Value(data)) <= 4 * |data|
  {
    ValBound(0x1_0000_0000, data);
    Pow256(|data|);
    if ByteLength(Value(data)) > 4 * |data| {
      PowMono(256, 4 * |data|, ByteLength(Value(data)) - 1);
    }
  }

  lemma SameBytes(result: seq<Byte>, data: seq<Word>)
    requires |result| <= 4 * |data|
    requires forall n :: 0 <= n < |result| ==> result[n] == LimbBytes(data)[n]
    requires forall n :: |result| <= n < 4 * |data| ==> LimbBytes(data)[n] == 0
    ensures Unsigned(result) == Value(data)
  {
    BytesToLimbs(result, data);
  }

  lemma TrimmedBytes(result: seq<Byte>)
    requires |result| == ByteLength(Unsigned(result))
    ensures Trimmed(result)
  {
    if |result| > 0 && result[|result| - 1] == 0 {
      LowBound(256, result, |result| - 1);
    }
  }
}
