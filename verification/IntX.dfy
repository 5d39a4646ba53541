/** The variable-length integer of the wire: a header byte with the sign and the payload length, then
    the low bytes of the 256-bit two's-complement word. A value of 64 bits takes exactly eight. */
module IntX {
  import opened Wrappers
  import opened Words64
  import opened Positional
  import opened Codecs
  import opened WireFormat
  import opened SignedBytes

  type Word256 = s: seq<Byte> | |s| == 32 witness seq(32, _ => 0)

  predicate InInt64(v: int) {
    -0x8000_0000_0000_0000 <= v < 0x8000_0000_0000_0000
  }

  /** The signed 256-bit numbers. */
  ghost predicate InInt256(v: int) {
    -(Pow(256, 32) as int) <= 2 * v < Pow(256, 32)
  }

  function FillByte(negative: bool): Byte {
    if negative then 255 else 0
  }

  function Filled(n: nat, negative: bool): (s: seq<Byte>)
    ensures |s| == n && forall i :: 0 <= i < n ==> s[i] == FillByte(negative)
  {
    seq(n, _ => FillByte(negative))
  }

  /** The number whose low bytes are p and whose higher bytes all repeat the sign. */
  function SignFilled(p: seq<Byte>, negative: bool): int {
    Unsigned(p) - (if negative then Pow(256, |p|) else 0)
  }

  lemma {:induction false} FillKeeps(p: seq<Byte>, n: nat, negative: bool)
    ensures SignFilled(p + Filled(n, negative), negative) == SignFilled(p, negative)
  {
    if n == 0 {
      assert p + Filled(0, negative) == p;
    } else {
      var q := p + Filled(n - 1, negative);
      FillKeeps(p, n - 1, negative);
      assert p + Filled(n, negative) == q + [FillByte(negative)];
      ValSnoc(256, q, FillByte(negative));
      assert Pow(256, |q| + 1) == 256 * Pow(256, |q|);
    }
  }

  lemma SignFilledRange(p: seq<Byte>, negative: bool)
    ensures negative ==> -(Pow(256, |p|) as int) <= SignFilled(p, negative) < 0
    ensures !negative ==> 0 <= SignFilled(p, negative) < Pow(256, |p|)
  {
    ValBound(256, p);
  }

  /** The top bit of the last byte is the top bit of the number. */
  lemma TopBitDecides(s: seq<Byte>)
    requires s != []
    ensures s[|s| - 1] >= 128 <==> 2 * Unsigned(s) >= Pow(256, |s|)
  {
    var n := |s| - 1;
    var low, q, d: nat := Unsigned(s[..n]), Pow(256, n), s[n];
    assert s[..n] + [s[n]] == s;
    ValSnoc(256, s[..n], s[n]);
    ValBound(256, s[..n]);
    HalfOf(low, d, q);
  }

  lemma HalfOf(low: nat, d: nat, q: nat)
    requires low < q && d < 256
    ensures d >= 128 <==> 2 * (low + d * q) >= 256 * q
  {
    if d >= 128 {
      Grow(128, d, q);
    } else {
      Grow(d, 127, q);
    }
  }

  /** Eight bytes stay in the 64-bit range exactly when their top bit agrees with the sign. */
  lemma EightBytes(p: seq<Byte>, negative: bool)
    requires |p| == 8
    ensures InInt64(SignFilled(p, negative)) <==> (p[7] >= 128) == negative
  {
    hide Pow;
    TopBitDecides(p);
    BytePowers();
    ValBound(256, p);
  }

  lemma FullWord(p: seq<Byte>, negative: bool)
    requires |p| == 32 && (p[31] >= 128) == negative
    ensures InInt256(SignFilled(p, negative))
  {
    hide Pow;
    TopBitDecides(p);
    ValBound(256, p);
  }

  lemma TwosIsFilled(s: seq<Byte>, negative: bool)
    requires s != [] && (s[|s| - 1] >= 128 <==> negative)
    ensures TwosComplement(s) == SignFilled(s, negative)
  {
  }

  /** The n-byte word of a number. */
  function WordOf(v: int, n: nat): (s: seq<Byte>)
    ensures |s| == n
  {
    LittleEndian(Residue(v, Pow(256, n)), n)
  }

  function Residue(v: int, m: nat): nat
    requires m > 0
  {
    v % m
  }

  lemma ResidueOf(v: int, m: nat)
    requires m > 0 && -(m as int) <= v < m
    ensures Residue(v, m) == if v < 0 then v + m else v
  {
    if v < 0 {
      Bits.DivModIs(v, m, -1, v + m);
    } else {
      Bits.DivModIs(v, m, 0, v);
    }
  }

  lemma WordReads(v: int, n: nat)
    requires n > 0 && -(Pow(256, n) as int) <= 2 * v < Pow(256, n)
    ensures SignFilled(WordOf(v, n), v < 0) == v && TwosComplement(WordOf(v, n)) == v
    ensures WordOf(v, n)[n - 1] >= 128 <==> v < 0
  {
    hide Pow, LittleEndian;
    var m, s := Pow(256, n), WordOf(v, n);
    ResidueOf(v, m);
    WrittenNumber(Residue(v, m), n);
    TopBitDecides(s);
  }

  // ---- trimming -----------------------------------------------------------------------------

  /** The length left after the trailing fill bytes are dropped. */
  function Significant(s: seq<Byte>, fill: Byte): (n: nat)
    ensures n <= |s| && (n > 0 ==> s[n - 1] != fill) && forall i :: n <= i < |s| ==> s[i] == fill
  {
    if s == [] then 0
    else if s[|s| - 1] != fill then |s|
    else Significant(s[..|s| - 1], fill)
  }

  lemma TrimKeeps(s: seq<Byte>, negative: bool)
    ensures SignFilled(s[..Significant(s, FillByte(negative))], negative) == SignFilled(s, negative)
  {
    var n := Significant(s, FillByte(negative));
    FillKeeps(s[..n], |s| - n, negative);
    assert s[..n] + Filled(|s| - n, negative) == s;
  }

  lemma {:induction false} SignificantIs(p: seq<Byte>, n: nat, negative: bool)
    requires p != [] ==> p[|p| - 1] != FillByte(negative)
    ensures Significant(p + Filled(n, negative), FillByte(negative)) == |p|
  {
    var s := p + Filled(n, negative);
    assert p != [] ==> s[|p| - 1] == p[|p| - 1];
  }

  // ---- the image ----------------------------------------------------------------------------

  function HeaderByte(length: nat, negative: bool): Byte
    requires length <= 32
  {
    length + (if negative then 128 else 0)
  }

  function WriteValue(v: int): seq<Byte> {
    if InInt64(v) then [HeaderByte(8, v < 0)] + WordOf(v, 8)
    else
      var word := WordOf(v, 32);
      var n := Significant(word, FillByte(v < 0));
      [HeaderByte(n, v < 0)] + word[..n]
  }

  /** The strict reader. */
  function ReadValue(s: seq<Byte>): Answer<int> {
    if s == [] then None
    else
      var length := s[0] % 64;
      var negative := s[0] >= 128;
      if length < 8 || |s| < 1 + length then None
      else
        var p := s[1..1 + length];
        var v := SignFilled(p, negative);
        if length == 8 && negative == (p[7] >= 128) then Some((v, 9))
        else if length > 32 || (s[0] / 64) % 2 == 1 then None
        else if length == 32 && negative != (p[31] >= 128) then None
        else if 0 <= v < 0x8000_0000_0000_0000 then None
        else Some((v, 1 + length))
  }

  /** The relaxed reader also takes words that would have fitted the short form. */
  function RelaxedValue(s: seq<Byte>): Answer<int> {
    if s == [] then None
    else
      var length := s[0] % 64;
      var negative := s[0] >= 128;
      if length < 8 || |s| < 1 + length then None
      else
        var p := s[1..1 + length];
        if length == 8 && negative == (p[7] >= 128) then Some((SignFilled(p, negative), 9))
        else if length > 32 || (s[0] / 64) % 2 == 1 then None
        else if length == 32 && negative != (p[31] >= 128) then None
        else Some((SignFilled(p, negative), 1 + length))
  }

  /** A word outside the 64-bit range keeps at least eight bytes, and exactly eight only when their
      top bit disagrees with the sign. */
  lemma TrimmedLength(v: int)
    requires InInt256(v) && !InInt64(v)
    ensures
      var p := WordOf(v, 32)[..Significant(WordOf(v, 32), FillByte(v < 0))];
      && 8 <= |p| <= 32 && SignFilled(p, v < 0) == v
      && (|p| == 8 ==> (v < 0) != (p[7] >= 128)) && (|p| == 32 ==> (v < 0) == (p[31] >= 128))
  {
    hide LittleEndian, Significant, Pow, SignFilled;
    var word := WordOf(v, 32);
    var n := Significant(word, FillByte(v < 0));
    var p := word[..n];
    WordReads(v, 32);
    TrimKeeps(word, v < 0);
    SignFilledRange(p, v < 0);
    BytePowers();
    PowUp(7);
    if n < 8 {
      PowMono(256, n, 7);
    } else if n == 8 {
      EightBytes(p, v < 0);
    }
  }

  lemma SmallReads(v: int, rest: seq<Byte>)
    requires InInt64(v)
    ensures ReadValue(WriteValue(v) + rest) == Some((v, |WriteValue(v)|))
  {
    hide Pow, LittleEndian, SignFilled, WordOf;
    BytePowers();
    WordReads(v, 8);
    assert (WriteValue(v) + rest)[1..9] == WordOf(v, 8);
  }

  lemma BigReads(v: int, rest: seq<Byte>)
    requires InInt256(v) && !InInt64(v)
    ensures ReadValue(WriteValue(v) + rest) == Some((v, |WriteValue(v)|))
  {
    hide Pow, LittleEndian, SignFilled, WordOf, Significant;
    TrimmedLength(v);
    var word := WordOf(v, 32);
    var n := Significant(word, FillByte(v < 0));
    HeaderFields(n, v < 0);
    assert (WriteValue(v) + rest)[1..1 + n] == word[..n];
  }

  lemma HeaderFields(length: nat, negative: bool)
    requires length <= 32
    ensures var h := HeaderByte(length, negative); h % 64 == length && (h / 64) % 2 == 0 && (h >= 128 <==> negative)
  {
  }

  /** Values as the chain knows them. */
  function IntXCodec(): Codec<int> {
    Codec((v: int) => WriteValue(v), (s: seq<Byte>) => ReadValue(s), (v: int) => InInt256(v), 9)
  }

  lemma ReadRange(s: seq<Byte>)
    requires ReadValue(s).Some?
    ensures 9 <= ReadValue(s).value.1 <= |s| && InInt256(ReadValue(s).value.0)
  {
    hide Pow, SignFilled;
    var length := s[0] % 64;
    var p := s[1..1 + length];
    var negative := s[0] >= 128;
    SignFilledRange(p, negative);
    if length == 32 {
      FullWord(p, negative);
    } else {
      PowMono(256, length + 1, 32);
      PowUp(length);
    }
  }

  lemma PowUp(n: nat)
    ensures Pow(256, n + 1) == 256 * Pow(256, n)
  {
  }

  /** Strict reading returns the written value, takes exactly its image of nine bytes or more, and
      bytes after it change nothing. */
  lemma IntXLawful()
    ensures Lawful(IntXCodec())
  {
    hide ReadValue, WriteValue;
    var c := IntXCodec();
    forall v: int, rest: seq<Byte> | c.fits(v) ensures c.dec(c.enc(v) + rest) == Some((v, |c.enc(v)|)) {
      if InInt64(v) { SmallReads(v, rest); } else { BigReads(v, rest); }
    }
    forall s: seq<Byte> | c.dec(s).Some? ensures c.least <= c.dec(s).value.1 <= |s| && c.fits(c.dec(s).value.0) {
      ReadRange(s);
    }
    forall s: seq<Byte>, t: seq<Byte> | c.dec(s).Some? ensures c.dec(s + t) == c.dec(s) {
      ReadExtends(s, t);
    }
  }

  lemma ReadExtends(s: seq<Byte>, t: seq<Byte>)
    requires ReadValue(s).Some?
    ensures ReadValue(s + t) == ReadValue(s)
  {
    hide SignFilled;
    assert (s + t)[1..1 + s[0] % 64] == s[1..1 + s[0] % 64];
  }

  // ---- which accepted images are the writer's -----------------------------------------------

  /** The reserved bit is clear and no fill byte is left to trim. */
  predicate Minimal(s: seq<Byte>)
    requires s != [] && s[0] % 64 < |s|
  {
    (s[0] / 64) % 2 == 0 && (s[0] % 64 == 8 || s[s[0] % 64] != FillByte(s[0] >= 128))
  }

  lemma WordUnique(p: seq<Byte>, negative: bool)
    requires p != []
    ensures WordOf(SignFilled(p, negative), |p|) == p
  {
    hide Pow, LittleEndian;
    SignFilledRange(p, negative);
    ResidueOf(SignFilled(p, negative), Pow(256, |p|));
    NumberWritten(p);
  }

  /** A payload longer than eight bytes with its top byte in use is outside the 64-bit range. */
  lemma LongIsBig(p: seq<Byte>, negative: bool)
    requires |p| > 8 && p[|p| - 1] != FillByte(negative)
    ensures !InInt64(SignFilled(p, negative))
  {
    hide Pow;
    var n := |p| - 1;
    var low, d, q: nat := Unsigned(p[..n]), p[n], Pow(256, n);
    assert p[..n] + [p[n]] == p;
    ValSnoc(256, p[..n], p[n]);
    ValBound(256, p[..n]);
    BytePowers();
    PowMono(256, 8, n);
    PowUp(n);
    TopInUse(low, d, q);
  }

  lemma TopInUse(low: nat, d: nat, q: nat)
    requires low < q && d < 256
    ensures d != 0 ==> low + d * q >= q
    ensures d != 255 ==> low + d * q < 255 * q
  {
    if d != 0 { Grow(1, d, q); }
    if d != 255 { Grow(d, 254, q); }
  }

  lemma FastImage(s: seq<Byte>)
    requires ReadValue(s).Some? && s[0] % 64 == 8 && (s[0] >= 128) == (s[8] >= 128)
    ensures WriteValue(ReadValue(s).value.0) == [HeaderByte(8, s[0] >= 128)] + s[1..9] && ReadValue(s).value.1 == 9
  {
    hide Pow, SignFilled, WordOf;
    var p, negative := s[1..9], s[0] >= 128;
    WordUnique(p, negative);
    SignFilledRange(p, negative);
    EightBytes(p, negative);
  }

  lemma LongImage(s: seq<Byte>)
    requires ReadValue(s).Some? && !(s[0] % 64 == 8 && (s[0] >= 128) == (s[8] >= 128))
    ensures
      var length, negative := s[0] % 64, s[0] >= 128;
      && length <= 32 && (s[0] / 64) % 2 == 0 && ReadValue(s).value.1 == 1 + length
      && WordOf(ReadValue(s).value.0, 32) == s[1..1 + length] + Filled(32 - length, negative)
      && (ReadValue(s).value.0 < 0 <==> negative)
      && (Minimal(s) ==> !InInt64(ReadValue(s).value.0))
  {
    hide Pow, SignFilled, WordOf;
    var length, negative := s[0] % 64, s[0] >= 128;
    var p := s[1..1 + length];
    FillKeeps(p, 32 - length, negative);
    WordUnique(p + Filled(32 - length, negative), negative);
    SignFilledRange(p, negative);
    if length == 8 {
      EightBytes(p, negative);
    } else if Minimal(s) {
      LongIsBig(p, negative);
    }
  }

  /** An accepted image is the writer's image of the value read exactly when it is minimal. The reader
      also takes a set reserved bit in front of eight bytes, and untrimmed words. */
  lemma CanonicalExactly(s: seq<Byte>)
    requires ReadValue(s).Some?
    ensures s != [] && s[0] % 64 < |s| && ReadValue(s).value.1 <= |s|
    ensures WriteValue(ReadValue(s).value.0) == s[..ReadValue(s).value.1] <==> Minimal(s)
  {
    hide Pow, SignFilled, WordOf, Significant;
    var length, negative := s[0] % 64, s[0] >= 128;
    var (v, n) := ReadValue(s).value;
    if length == 8 && negative == (s[8] >= 128) {
      FastImage(s);
      assert s[..9] == [s[0]] + s[1..9];
      HeaderFields(8, negative);
    } else {
      LongImage(s);
      var p := s[1..1 + length];
      if Minimal(s) {
        SignificantIs(p, 32 - length, negative);
        assert (p + Filled(32 - length, negative))[..length] == p;
        assert s[..1 + length] == [s[0]] + p;
      } else if InInt64(v) {
        HeaderFields(8, v < 0);
      } else {
        HeaderFields(Significant(WordOf(v, 32), FillByte(v < 0)), v < 0);
        assert s[length] == WordOf(v, 32)[length - 1];
      }
    }
  }
}
