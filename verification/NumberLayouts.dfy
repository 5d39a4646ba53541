/** The bytes of variable-length numbers, what the readers refuse, and some of the repository's vectors. */
module NumberLayouts {
  import opened Wrappers
  import opened Words64
  import opened Positional
  import opened Codecs
  import opened WireFormat
  import opened SignedBytes
  import opened IntX
  import opened IntXViews
  import opened Views

  // ---- amounts ------------------------------------------------------------------------------

  /** A header with the number of bytes and the sign, then the low bytes of the number: exactly eight for a
      64-bit number, and for any other as many as are needed before the sign repeats. */
  lemma AmountLayout(v: int)
    requires InInt256(v)
    ensures
      var image := WriteValue(v);
      var n: nat, fill := |image| - 1, if v < 0 then 255 else 0;
      && 8 <= n <= 32 && image[0] as int == n + (if v < 0 then 128 else 0)
      && v == Number(image[1..]) - (if v < 0 then Pow(256, n) else 0)
      && (if -0x8000_0000_0000_0000 <= v < 0x8000_0000_0000_0000 then n == 8 else image[n] != fill)
  {
    hide Pow, LittleEndian, WordOf, Significant;
    BytePowers();
    if InInt64(v) {
      WordReads(v, 8);
      assert WriteValue(v)[1..] == WordOf(v, 8);
    } else {
      TrimmedLength(v);
      var word := WordOf(v, 32);
      assert WriteValue(v)[1..] == word[..Significant(word, FillByte(v < 0))];
    }
  }

  /** What the strict reader takes: eight bytes that carry their own sign, or, without the reserved bit, up to
      32 bytes that are no small non-negative number and whose sign is the header's. */
  lemma AmountTaken(s: seq<Byte>)
    ensures ReadValue(s).Some? <==>
      s != [] && 8 <= s[0] % 64 < |s| &&
      var n, negative := s[0] % 64, s[0] >= 128;
      || (n == 8 && (s[8] >= 128 <==> negative))
      || (s[0] % 128 < 64 && n <= 32 && (n == 32 ==> (s[32] >= 128 <==> negative)) && (negative || Number(s[1..1 + n]) >= 0x8000_0000_0000_0000))
    ensures ReadValue(s).Some? ==>
      var n, negative := s[0] % 64, s[0] >= 128;
      ReadValue(s).value == ((Number(s[1..1 + n]) as int) - (if negative then Pow(256, n) else 0), 1 + n)
  {
    hide Pow, Number;
    if s != [] && s[0] % 64 < |s| {
      ReservedBit(s[0]);
      var p := s[1..1 + s[0] % 64];
      NumberIsUnsigned(p);
      SignFilledRange(p, s[0] >= 128);
    }
  }

  lemma ReservedBit(b: Byte)
    ensures (b / 64) % 2 == 0 <==> b % 128 < 64
  {
  }

  lemma NumberIsUnsigned(p: seq<Byte>)
    ensures Number(p) == Unsigned(p)
  {
  }

  // ---- 256-bit words ------------------------------------------------------------------------

  /** A header with the number of bytes kept and the sign, then those bytes; the others repeat the sign. */
  lemma WordLayout(w: Word256)
    ensures WordImage(w) != []
    ensures
      var image := WordImage(w);
      var n: int, negative := |image| - 1, w[31] >= 128;
      && 0 <= n <= 32 && image[0] as int == n + (if negative then 128 else 0) && image[1..] == w[..n]
      && (forall i :: n <= i < 32 ==> w[i] == if negative then 255 else 0) && (n > 0 ==> w[n - 1] != if negative then 255 else 0)
  {
  }

  /** What the word reader takes, and the word: the bytes behind the header and the sign above them. */
  lemma WordTaken(s: seq<Byte>)
    ensures WordDec(s).Some? <==>
      s != [] && s[0] % 128 < 64 && s[0] % 64 <= 32 && s[0] % 64 < |s| && (s[0] % 64 == 32 ==> (s[32] >= 128 <==> s[0] >= 128))
    ensures WordDec(s).Some? ==>
      var n: nat, w := s[0] % 64, WordDec(s).value.0;
      WordDec(s).value.1 == 1 + n && w[..n] == s[1..1 + n] && forall i :: n <= i < 32 ==> w[i] == if s[0] >= 128 then 255 else 0
  {
    if s != [] {
      ReservedBit(s[0]);
    }
  }

  // ---- vectors ------------------------------------------------------------------------------

  lemma AmountVectors()
    ensures WriteValue(0) == [0x08, 0, 0, 0, 0, 0, 0, 0, 0]
    ensures WriteValue(1) == [0x08, 1, 0, 0, 0, 0, 0, 0, 0]
    ensures WriteValue(-1) == [0x88, 0xFF, 0xFF, 0xFF, 0xFF, 0xFF, 0xFF, 0xFF, 0xFF]
    ensures WriteValue(-256) == [0x88, 0, 0xFF, 0xFF, 0xFF, 0xFF, 0xFF, 0xFF, 0xFF]
  {
    hide WriteValue;
    SmallVector(0, [0, 0, 0, 0, 0, 0, 0, 0]);
    SmallVector(1, [1, 0, 0, 0, 0, 0, 0, 0]);
    SmallVector(-1, [0xFF, 0xFF, 0xFF, 0xFF, 0xFF, 0xFF, 0xFF, 0xFF]);
    SmallVector(-256, [0, 0xFF, 0xFF, 0xFF, 0xFF, 0xFF, 0xFF, 0xFF]);
  }

  function Spelled(p: seq<nat>): nat {
    if |p| != 8 then 0
    else
      var low: nat := p[0] + 0x100 * p[1] + 0x1_0000 * p[2] + 0x100_0000 * p[3];
      var high: nat := p[4] + 0x100 * p[5] + 0x1_0000 * p[6] + 0x100_0000 * p[7];
      low + 0x1_0000_0000 * high
  }

  lemma SpelledIs(p: seq<Byte>)
    requires |p| == 8
    ensures Number(p) == Spelled(p)
  {
    var a: nat, b: nat, c: nat, d: nat := p[0], p[1], p[2], p[3];
    var e: nat, f: nat, g: nat, h: nat := p[4], p[5], p[6], p[7];
    assert Low(256, p, 0) == 0;
    BytePowers();
    PowUp(7);
    assert Low(256, p, 1) == Low(256, p, 0) + a * Pow(256, 0);
    assert Low(256, p, 2) == Low(256, p, 1) + b * Pow(256, 1);
    assert Low(256, p, 3) == Low(256, p, 2) + c * Pow(256, 2);
    assert Low(256, p, 4) == Low(256, p, 3) + d * Pow(256, 3);
    assert Low(256, p, 5) == Low(256, p, 4) + e * Pow(256, 4);
    assert Low(256, p, 6) == Low(256, p, 5) + f * Pow(256, 5);
    assert Low(256, p, 7) == Low(256, p, 6) + g * Pow(256, 6);
    assert Low(256, p, 8) == Low(256, p, 7) + h * Pow(256, 7);
  }

  lemma SmallVector(v: int, p: seq<Byte>)
    requires |p| == 8 && InInt64(v) && v == (Spelled(p) as int) - (if v < 0 then 0x1_0000_0000_0000_0000 else 0)
    ensures WriteValue(v) == [if v < 0 then 0x88 else 0x08] + p
  {
    hide Pow, Number, LittleEndian;
    BytePowers();
    SpelledIs(p);
    NumberWritten(p);
    ResidueOf(v, Pow(256, 8));
  }

  lemma WordVectors()
    ensures WordImage(seq(32, _ => 0)) == [0x00]
    ensures WordImage(seq(32, _ => 255)) == [0x80]
    ensures WordImage([255] + seq(31, _ => 0)) == [0x01, 0xFF]
    ensures WordImage([1] + seq(31, _ => 255)) == [0x81, 0x01]
    ensures WordImage(seq(31, _ => 255) + [0x7F]) == [0x20] + seq(31, _ => 255) + [0x7F]
  {
    hide WordImage, Significant;
    WordLayout(seq(32, _ => 0));
    WordLayout(seq(32, _ => 255));
    WordLayout([255] + seq(31, _ => 0));
    WordLayout([1] + seq(31, _ => 255));
    WordLayout(seq(31, _ => 255) + [0x7F]);
    KeptBytes(seq(32, _ => 0), []);
    KeptBytes(seq(32, _ => 255), []);
    KeptBytes([255] + seq(31, _ => 0), [255]);
    KeptBytes([1] + seq(31, _ => 255), [1]);
    KeptBytes(seq(31, _ => 255) + [0x7F], seq(31, _ => 255) + [0x7F]);
  }

  lemma KeptBytes(w: Word256, p: seq<Byte>)
    requires |p| <= 32 && w[..|p|] == p && (forall i :: |p| <= i < 32 ==> w[i] == if w[31] >= 128 then 255 else 0)
    requires p != [] ==> p[|p| - 1] != if w[31] >= 128 then 255 else 0
    ensures WordImage(w) == [(|p| + (if w[31] >= 128 then 128 else 0)) as int] + p
  {
    hide WordImage;
    WordLayout(w);
    var n: nat := |WordImage(w)| - 1;
    if p != [] { assert w[|p| - 1] == w[..|p|][|p| - 1]; }
    assert n == |p|;
    assert WordImage(w) == [WordImage(w)[0]] + WordImage(w)[1..];
  }
}
